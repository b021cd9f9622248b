// fs/fs.c sys_mkdir and sys_rmdir, fs/dir.c dir_remove, once the path has been resolved.

module MakeDir {
  import opened Disk
  import opened Bitmaps
  import opened Ownership
  import opened Records
  import opened Files
  import opened FileSystem
  import opened CStrings
  import opened Entries
  import opened Directories
  import opened DirectoryMap
  import opened Unlink

  /** The first sector of a directory: "." and "..". */
  function DotsSector(ino: nat, parent: nat): Sector {
    Splice(Splice(ZeroSector(), 0, MakeEntry(Dot(), ino, FT_DIRECTORY)), 24, MakeEntry(DotDot(), parent, FT_DIRECTORY))
  }

  lemma DotsSlots(ino: nat, parent: nat, j: nat)
    requires j < 21
    ensures Slot(DotsSector(ino, parent), j) ==
            if j == 0 then MakeEntry(Dot(), ino, FT_DIRECTORY)
            else if j == 1 then MakeEntry(DotDot(), parent, FT_DIRECTORY) else Free()
  {
    hide Slot, MakeEntry, Splice, Free;
    var one: Sector := Splice(ZeroSector(), 0, MakeEntry(Dot(), ino, FT_DIRECTORY));
    SlotSplice(ZeroSector(), 0, MakeEntry(Dot(), ino, FT_DIRECTORY), j);
    SlotSplice(one, 1, MakeEntry(DotDot(), parent, FT_DIRECTORY), j);
    ZeroSlots(j);
  }

  lemma DotEntries(ino: nat, parent: nat)
    requires ino < 4096 && parent < 4096
    ensures var e := MakeEntry(Dot(), ino, FT_DIRECTORY); Live(e) && Name(e) == Dot() && Target(e) == ino
    ensures var e := MakeEntry(DotDot(), parent, FT_DIRECTORY); Live(e) && Name(e) == DotDot() && Target(e) == parent
  {
    hide MakeEntry, Name, Target, Kind;
    MadeEntry(Dot(), ino, FT_DIRECTORY);
    MadeEntry(DotDot(), parent, FT_DIRECTORY);
  }

  lemma DotKinds(ino: nat, parent: nat)
    requires ino < 4096 && parent < 4096
    ensures Kind(MakeEntry(Dot(), ino, FT_DIRECTORY)) == FT_DIRECTORY
    ensures Kind(MakeEntry(DotDot(), parent, FT_DIRECTORY)) == FT_DIRECTORY
  {
    hide MakeEntry, Name, Target, Kind;
    MadeEntry(Dot(), ino, FT_DIRECTORY);
    MadeEntry(DotDot(), parent, FT_DIRECTORY);
  }

  /** The table of a fresh directory. */
  ghost predicate FreshTable(s: seq<Entry>, ino: nat, parent: nat) {
    && |s| == 252 && s[0] == MakeEntry(Dot(), ino, FT_DIRECTORY) && s[1] == MakeEntry(DotDot(), parent, FT_DIRECTORY)
    && forall p: nat :: 2 <= p < 252 ==> s[p] == Free()
  }

  lemma FreshGood(s: seq<Entry>, ino: nat, parent: nat)
    requires ino < 4096 && parent < 4096 && FreshTable(s, ino, parent)
    ensures GoodTable(s) && |LiveOf(s)| == 2
  {
    hide MakeEntry, Live, Name, Target, Free, LiveOf;
    DotEntries(ino, parent);
    FreeIsFree();
    assert Dot() != DotDot();
    TwoLive(s);
  }

  lemma FreshDir(d: seq<Sector>, n: Inode, ino: nat, parent: nat)
    requires ino < 4096 && parent < 4096 && n.size == 48 && n.sectors[0] != 0
    requires (forall k: nat :: 1 <= k < 13 ==> n.sectors[k] == 0)
    requires Data(d, n, 0) == DotsSector(ino, parent)
    ensures DirOk(d, n) && FreshTable(EntriesOf(d, n), ino, parent)
  {
    hide MakeEntry, Live, Name, Free, LiveOf, EntriesOf, Slot, GoodTable, DotsSector, Block, Data;
    var s := EntriesOf(d, n);
    forall p: nat | p < 252
      ensures s[p] == if p == 0 then MakeEntry(Dot(), ino, FT_DIRECTORY)
                      else if p == 1 then MakeEntry(DotDot(), parent, FT_DIRECTORY) else Free()
    {
      Place(p);
      var b, i := p / 21, p % 21;
      EntryAt(d, n, b, i);
      if b == 0 {
        DotsSlots(ino, parent, i);
      } else {
        HoleData(d, n, b);
        ZeroSlots(i);
      }
    }
    FreshGood(s, ino, parent);
    forall b: nat | 1 <= b < 12 ensures Block(d, n, b) == 0 {
      HoleBlock(d, n, b);
    }
  }

  /** A new inode with a block of dots. */
  ghost predicate DirMade(fs: Fs, ns: Fs, ino: nat, parent: nat) {
    && NewOne(fs, ns, ino) && OwnInv(ns) && ino in ns.inodes && DirOk(ns.disk, ns.inodes[ino])
    && BitsGrew(fs.bits, ns.bits)
    && FreshTable(EntriesOf(ns.disk, ns.inodes[ino]), ino, parent)
    && CountClear(ns.bits) == CountClear(fs.bits) - 1
  }

  /** The first half of sys_mkdir. */
  method NewDirectory(p: Partition, parent: nat, ino: nat) returns (ok: bool)
    requires OwnInv(p.State()) && RootBit(p.bits) && ino !in p.inodes && ino < 4096 && parent < 4096
    modifies p`bits, p`disk, p`inodes
    ensures ok <==> CountClear(old(p.bits)) != 0
    ensures ok ==> DirMade(old(p.State()), p.State(), ino, parent)
  {
    hide OwnInv, CountClear, DirMade, NewDirect, BitsGrew, Granted, FirstClear, DotsSector, NewOne;
    ghost var fs := p.State();
    CountZero(p.bits);
    var more, lba := p.AllocBlock();
    if !more {
      return false;
    }
    NotBitZero(fs.bits);
    assert lba - p.dataStart != 0;
    FreshDirect(fs, p.bits, lba);
    p.disk := p.disk[lba := DotsSector(ino, parent)];
    p.inodes := p.inodes[ino := Inode(48, EmptyInode().sectors[0 := lba])];
    MadeDirectory(fs, p.State(), ino, parent, lba);
    return true;
  }

  lemma NotBitZero(bits: seq<bool>)
    requires RootBit(bits)
    ensures FirstClear(bits) != 0
  {
  }

  lemma MadeDirectory(fs: Fs, ns: Fs, ino: nat, parent: nat, lba: nat)
    requires ino !in fs.inodes && ino < 4096 && parent < 4096 && 0 < lba < |fs.disk|
    requires ns.disk == fs.disk[lba := DotsSector(ino, parent)]
    requires ns.inodes == fs.inodes[ino := Inode(48, EmptyInode().sectors[0 := lba])]
    requires ns == fs.(disk := ns.disk, bits := ns.bits, inodes := ns.inodes)
    requires FirstClear(fs.bits) < |fs.bits| && ns.bits == fs.bits[FirstClear(fs.bits) := true]
    requires Granted(fs.dataStart, fs.bits, ns.bits, [lba]) && BitsGrew(fs.bits, ns.bits) && OwnInv(fs)
    ensures DirMade(fs, ns, ino, parent)
  {
    hide OwnInv, CountClear, BitsGrew, Granted, FirstClear, DotsSector, OthersKept, DirOk, EntriesOf, Data;
    var es := fs.(inodes := fs.inodes[ino := EmptyInode()]);
    var n := ns.inodes[ino];
    WithInodeInv(fs, es, ino);
    assert ns.inodes == es.inodes[ino := Inode(48, es.inodes[ino].sectors[0 := lba])];
    NewDirectHere(es, ns, ino, 0, lba, DotsSector(ino, parent), 48);
    NewDirectInv(es, ns, ino, 0, lba, DotsSector(ino, parent), 48);
    KeptTrans(fs, es, ns, ino);
    FreshDir(ns.disk, n, ino, parent);
    CountAfterSet(fs.bits, FirstClear(fs.bits));
  }

  /** No free inode, or fewer free blocks than the new directory and its parent need. */
  ghost predicate MkdirHalts(fs: Fs, ibits: seq<bool>, dir: nat)
    requires dir in fs.inodes
  {
    FirstClear(ibits) == |ibits| || CountClear(fs.bits) < 1 + SyncNeeds(fs.disk, fs.inodes[dir])
  }

  /** sys_mkdir after the path was resolved. */
  method Mkdir(p: Partition, dir: nat, name: seq<Byte>) returns (r: CreateResult, ghost ns: Fs)
    requires OwnInv(p.State()) && RootBit(p.bits) && InodeBits(p.ibits, p.inodes) && |p.ibits| == 4096
    requires dir in p.inodes && Searchable(p.disk, p.inodes[dir])
    requires 1 <= |name| <= 15 && 0 !in name && LeadsInside(p.State(), dir) && Nameless(p.State(), dir, name)
    modifies p`bits, p`ibits, p`disk, p`inodes, p`synced
    ensures r.CreateHalted? <==> MkdirHalts(old(p.State()), old(p.ibits), dir)
    ensures r.NewInode? ==> Created(old(p.State()), ns, p.State(), dir, r.ino, name, FT_DIRECTORY)
    ensures r.Overflown? ==> CreatedOver(old(p.State()), ns, p.State(), dir, r.ino, name, FT_DIRECTORY)
    ensures !r.CreateHalted? ==>
            r.ino == FirstClear(old(p.ibits)) && r.ino in p.inodes && DirOk(p.disk, p.inodes[r.ino])
    ensures !r.CreateHalted? ==> FreshTable(EntriesOf(p.disk, p.inodes[r.ino]), r.ino, dir)
    ensures !r.CreateHalted? ==> InodeBits(p.ibits, p.inodes) && p.ibits == old(p.ibits)[r.ino := true]
    ensures !r.CreateHalted? ==>
            dir in p.inodes && p.synced == Synced(Synced(old(p.synced), dir, p.inodes[dir]), r.ino, p.inodes[r.ino])
  {
    hide OwnInv, EntriesOf, DirOk, Searchable, Inserted, NewEntry, LeadsInside, Nameless, SyncNeeds, CountClear,
         MakeEntry, NewOne, DirMade, FreshTable, RootBit, Overflows, InodeBits, FirstClear;
    ghost var fs := p.State();
    InodeCount(p.ibits, p.inodes);
    var ino := FirstClear(p.ibits);
    ns := fs;
    if ino == 4096 {
      return CreateHalted, ns;
    }
    p.ibits := p.ibits[ino := true];
    var ok := NewDirectory(p, dir, ino);
    if !ok {
      return CreateHalted, ns;
    }
    ns := p.State();
    DirMadeFacts(fs, ns, ino, dir);
    FreshEntry(fs, ns, dir, ino, name, FT_DIRECTORY);
    StillSearchable(fs, ns, dir);
    ghost var e := MakeEntry(name, ino, FT_DIRECTORY);
    var put := SyncDirEntry(p, dir, MakeEntry(name, ino, FT_DIRECTORY));
    if put.SyncHalted? {
      return CreateHalted, ns;
    }
    if put.Stored? {
      StillFresh(ns, p.State(), dir, e, ino);
    } else {
      StillFreshOver(ns, p.State(), dir, e, ino);
    }
    NewBits(fs.inodes, p.inodes, old(p.ibits), ino);
    p.synced := Synced(Synced(p.synced, dir, p.inodes[dir]), ino, p.inodes[ino]);
    return if put.Stored? then NewInode(ino) else Overflown(ino), ns;
  }

  lemma StillFreshOver(ns: Fs, gs: Fs, dir: nat, e: Entry, ino: nat)
    requires OwnInv(ns) && ino in ns.inodes && ino != dir && DirOk(ns.disk, ns.inodes[ino]) && Overflows(ns, gs, dir, e)
    ensures ino in gs.inodes && dir in gs.inodes && gs.inodes.Keys == ns.inodes.Keys
    ensures DirOk(gs.disk, gs.inodes[ino]) && EntriesOf(gs.disk, gs.inodes[ino]) == EntriesOf(ns.disk, ns.inodes[ino])
  {
    hide OwnInv, EntriesOf, DirOk, Overflows, SameInode;
    OverflownFacts(ns, gs, dir, e, ino);
    assert KeptFile(ns, gs, ino);
    SameDir(ns.disk, gs.disk, ns.inodes[ino]);
  }

  lemma DirMadeFacts(fs: Fs, ns: Fs, ino: nat, parent: nat)
    requires DirMade(fs, ns, ino, parent)
    ensures NewOne(fs, ns, ino) && OwnInv(ns) && ns.inodes.Keys == fs.inodes.Keys + {ino}
    ensures DirOk(ns.disk, ns.inodes[ino])
    ensures FreshTable(EntriesOf(ns.disk, ns.inodes[ino]), ino, parent)
    ensures CountClear(ns.bits) == CountClear(fs.bits) - 1
  {
    hide OwnInv, DirOk, FreshTable, EntriesOf, CountClear;
  }

  lemma StillFresh(ns: Fs, gs: Fs, dir: nat, e: Entry, ino: nat)
    requires ino in ns.inodes && ino != dir && DirOk(ns.disk, ns.inodes[ino]) && Inserted(ns, gs, dir, e)
    ensures ino in gs.inodes && dir in gs.inodes && gs.inodes.Keys == ns.inodes.Keys
    ensures DirOk(gs.disk, gs.inodes[ino]) && EntriesOf(gs.disk, gs.inodes[ino]) == EntriesOf(ns.disk, ns.inodes[ino])
  {
    hide OwnInv, EntriesOf, DirOk, BitsGrew, SameInode;
    assert KeptFile(ns, gs, ino);
    SameDir(ns.disk, gs.disk, ns.inodes[ino]);
  }

  /** Astray: the record that dir_open found carries another number, and the call goes on with that inode. */
  datatype RmdirResult = NotEmpty | Astray | Removed

  /**
   * sys_rmdir once the path was resolved to a directory and the directory searched before it, which is the same one for
   * a path that ends in ".": dir_open, dir_is_empty, then dir_remove with its ASSERTs.  dir_remove ignores whether
   * delete_dir_entry found an entry.
   */
  method Rmdir(p: Partition, dir: nat, ino: nat) returns (r: RmdirResult, found: bool, ghost q: nat, ghost es: Fs)
    requires OwnInv(p.State()) && RootOwns(p.State()) && ino in p.inodes && ino != 0 && ino < |p.ibits|
    requires dir in p.inodes && DirOk(p.disk, p.inodes[dir]) && DirOk(p.disk, p.inodes[ino])
    requires OwnSlot(p.synced, p.inodes, ino)
    modifies p`bits, p`ibits, p`disk, p`inodes, p`synced, p`open
    ensures r.NotEmpty? <==> Seen(old(p.synced), old(p.open), old(p.inodes), ino).inode.size != 48
    ensures r.Astray? <==> !r.NotEmpty? && Seen(old(p.synced), old(p.open), old(p.inodes), ino).no != ino
    ensures !r.Astray? && Seen(old(p.synced), old(p.open), old(p.inodes), ino).no == ino ==>
              (r.Removed? <==> forall t: nat :: 2 <= t < 252 ==> !Live(EntriesOf(old(p.disk), old(p.inodes[ino]))[t]))
    ensures r.NotEmpty? ==> p.State() == old(p.State()) && p.ibits == old(p.ibits) && p.synced == old(p.synced)
    ensures p.open == old(p.open)
    ensures r.Removed? && found ==>
            LeadsTo(EntriesOf(old(p.disk), old(p.inodes[dir])), q, ino) && Erased(old(p.State()), es, dir, q)
    ensures r.Removed? && !found ==>
            es == old(p.State()) && forall t: nat :: !LeadsTo(EntriesOf(old(p.disk), old(p.inodes[dir])), t, ino)
    ensures r.Removed? ==> Released(es, p.State(), ino) && p.ibits == old(p.ibits)[ino := false] && dir in es.inodes
    ensures r.Removed? ==>
            p.synced == Cleared(if found then Synced(old(p.synced), dir, es.inodes[dir]) else old(p.synced), ino)
    ensures r.Removed? && InodeBits(old(p.ibits), old(p.inodes)) ==> InodeBits(p.ibits, p.inodes)
  {
    hide OwnInv, EntriesOf, DirOk, Live, LeadsTo, RootOwns, Erased, Released;
    found, q, es := false, 0, p.State();
    var child := Seen(p.synced, p.open, p.inodes, ino);
    if child.inode.size != 24 * 2 {
      EmptySizeIs(p.disk, p.inodes[ino]);
      return NotEmpty, false, q, es;
    }
    if child.no != ino {
      return Astray, false, q, es;
    }
    EmptySizeIs(p.disk, p.inodes[ino]);
    EmptyHasOneBlock(p.disk, p.inodes[ino]);
    assert forall k: nat :: 1 <= k < 13 ==> p.inodes[ino].sectors[k] == 0;
    var was := p.open;
    p.open := p.open + {ino};
    ghost var fs := p.State();
    found, q := DeleteDirEntry(p, dir, ino);
    es := p.State();
    if found {
      NotItself(fs, es, dir, ino, q);
      ErasedRest(fs, es, dir, q, ino);
      ErasedKeys(fs, es, dir, q);
    }
    var ok := InodeRelease(p, ino);
    ReleasedKeys(es, p.State(), ino);
    p.open := was;
    return Removed, found, q, es;
  }

  /** A directory with no entry but "." and ".." has none that leads to itself. */
  lemma NotItself(fs: Fs, es: Fs, dir: nat, ino: nat, q: nat)
    requires dir in fs.inodes && ino in fs.inodes && LeadsTo(EntriesOf(fs.disk, fs.inodes[dir]), q, ino)
    requires forall t: nat :: 2 <= t < 252 ==> !Live(EntriesOf(fs.disk, fs.inodes[ino])[t])
    ensures dir != ino
  {
    hide EntriesOf, Live, Target;
  }

  lemma EmptySizeIs(d: seq<Sector>, n: Inode)
    requires DirOk(d, n)
    ensures n.size == 48 <==> forall t: nat :: 2 <= t < 252 ==> !Live(EntriesOf(d, n)[t])
  {
    hide EntriesOf, Live, LiveOf, DirOk;
    DirSize(d, n);
    DirTable(d, n);
    TwoLive(EntriesOf(d, n));
  }
}
