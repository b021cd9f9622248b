// fs/dir.c sync_dir_entry on a directory whose twelve direct blocks are full: what the entry behind a table costs.

module FullDirectory {
  import opened Disk
  import opened Ownership
  import opened Files
  import opened FileSystem
  import opened Entries
  import opened Directories

  /** A block that was free belongs to no inode. */
  lemma FreshBlock(fs: Fs, gs: Fs, got: seq<nat>, j: nat, b: nat)
    requires OwnInv(fs) && Granted(fs.dataStart, fs.bits, gs.bits, got) && b in got && j in fs.inodes
    ensures !Owns(fs.disk, fs.inodes[j], b) && fs.dataStart <= b < fs.dataStart + |fs.bits|
    ensures !fs.bits[b - fs.dataStart] && gs.bits[b - fs.dataStart] && b !in fs.reserved
  {
    hide OwnInv, Owns, Distinct, Placed, BitsExact;
    InodeParts(fs, j);
    GotPlaced(fs, gs.bits, got, b);
    if Owns(fs.disk, fs.inodes[j], b) {
      PlacedBlock(fs, fs.inodes[j], b);
    }
  }

  /** Every other inode is kept block by block. */
  lemma OverflowOthers(fs: Fs, gs: Fs, dir: nat, e: Entry, table: nat, block: nat)
    requires OwnInv(fs) && Overflowed(fs, gs, dir, e, table, block)
    ensures OthersKept(fs, gs, dir) && SameShape(fs, gs) && gs.inodes.Keys == fs.inodes.Keys
  {
    forall j | j in fs.inodes && j != dir ensures KeptFile(fs, gs, j) {
      hide OwnInv, Owns, EntriesOf, FirstFree, Granted, SameInode, OneBlockTable, Splice;
      FreshBlock(fs, gs, [table, block], j, table);
      FreshBlock(fs, gs, [table, block], j, block);
      forall b: nat | Owns(fs.disk, fs.inodes[j], b) ensures Read(fs.disk, b) == Read(gs.disk, b) {
      }
      Untouched(fs.disk, gs.disk, fs.inodes[j]);
    }
    GrantedSize(fs.dataStart, fs.bits, gs.bits, [table, block]);
  }

  lemma GrantedSize(start: nat, before: seq<bool>, after: seq<bool>, got: seq<nat>)
    requires Granted(start, before, after, got)
    ensures |after| == |before|
  {
  }

  lemma TableWords(block: nat, k: nat)
    requires block < 0x1_0000_0000 && k < 128
    ensures Words(OneBlockTable(block))[k] == if k == 0 then block else 0
  {
    TableRoundTrip([block] + seq(127, _ => 0));
  }

  /** The directory's blocks afterwards: the twelve direct ones and one behind the table. */
  lemma OverflowBlocks(fs: Fs, gs: Fs, dir: nat, e: Entry, table: nat, block: nat, k: nat)
    requires OwnInv(fs) && Overflowed(fs, gs, dir, e, table, block) && k < 140
    ensures Block(gs.disk, gs.inodes[dir], k) ==
            if k < 12 then fs.inodes[dir].sectors[k] else if k == 12 then block else 0
  {
    hide EntriesOf, FirstFree, Granted, OneBlockTable, Splice;
    if k >= 12 {
      DiskSmall(fs);
      TableWords(block, k - 12);
      assert Read(gs.disk, table) == OneBlockTable(block);
    }
  }

  lemma DiskSmall(fs: Fs)
    requires OwnInv(fs)
    ensures |fs.disk| < 0x1_0000_0000
  {
    hide Distinct, Placed, BitsExact, Apart;
  }

  /** What the directory owns afterwards: its direct blocks, the new table and the new block, and nothing else. */
  lemma OverflowOwns(fs: Fs, gs: Fs, dir: nat, e: Entry, table: nat, block: nat, b: nat)
    requires OwnInv(fs) && Overflowed(fs, gs, dir, e, table, block)
    ensures Owns(gs.disk, gs.inodes[dir], b) <==>
              b == table || b == block || (b != 0 && exists k: nat :: k < 12 && fs.inodes[dir].sectors[k] == b)
  {
    hide OwnInv, EntriesOf, FirstFree, Granted, OneBlockTable, Splice, Block;
    var m := gs.inodes[dir];
    forall k: nat | k < 140
      ensures Block(gs.disk, m, k) == if k < 12 then fs.inodes[dir].sectors[k] else if k == 12 then block else 0
    {
      OverflowBlocks(fs, gs, dir, e, table, block, k);
    }
    if Owns(gs.disk, m, b) && b != table && b != block {
      var k: nat :| k < 140 && Block(gs.disk, m, k) == b;
      assert fs.inodes[dir].sectors[k] == b;
    }
    if b == block {
      assert Block(gs.disk, m, 12) == b;
    }
    if b != 0 && exists k: nat :: k < 12 && fs.inodes[dir].sectors[k] == b {
      var k: nat :| k < 12 && fs.inodes[dir].sectors[k] == b;
      assert Block(gs.disk, m, k) == b;
    }
  }

  lemma DirectOwns(d: seq<Sector>, n: Inode, b: nat)
    requires n.sectors[12] == 0
    ensures Owns(d, n, b) <==> b != 0 && exists k: nat :: k < 12 && n.sectors[k] == b
  {
    if Owns(d, n, b) {
      var k: nat :| k < 140 && Block(d, n, k) == b;
      assert k < 12 && n.sectors[k] == b;
    }
    if b != 0 && exists k: nat :: k < 12 && n.sectors[k] == b {
      var k: nat :| k < 12 && n.sectors[k] == b;
      assert Block(d, n, k) == b;
    }
  }

  lemma OverflowDistinct(fs: Fs, gs: Fs, dir: nat, e: Entry, table: nat, block: nat)
    requires OwnInv(fs) && Overflowed(fs, gs, dir, e, table, block) && fs.inodes[dir].sectors[12] == 0
    ensures Distinct(gs.disk, gs.inodes[dir])
  {
    hide OwnInv, EntriesOf, FirstFree, Granted, OneBlockTable, Splice, Owns, Block;
    var n, m := fs.inodes[dir], gs.inodes[dir];
    FreshBlock(fs, gs, [table, block], dir, table);
    FreshBlock(fs, gs, [table, block], dir, block);
    InodeParts(fs, dir);
    forall k: nat | k < 140
      ensures Block(gs.disk, m, k) == if k < 12 then n.sectors[k] else if k == 12 then block else 0
    {
      OverflowBlocks(fs, gs, dir, e, table, block, k);
    }
    forall k: nat | k < 12
      ensures n.sectors[k] == Block(fs.disk, n, k) && n.sectors[k] != table && n.sectors[k] != block
    {
      HoleBlock(fs.disk, n, k);
      DirectOwns(fs.disk, n, n.sectors[k]);
    }
  }

  /**
   * The first entry behind a table: ownership is still exact, but the directory is no longer one the other calls can
   * use.
   */
  lemma FirstOverflow(fs: Fs, gs: Fs, dir: nat, e: Entry, table: nat, block: nat)
    requires OwnInv(fs) && Overflowed(fs, gs, dir, e, table, block) && fs.inodes[dir].sectors[12] == 0
    ensures OwnInv(gs) && !DirOk(gs.disk, gs.inodes[dir])
    ensures Slot(Data(gs.disk, gs.inodes[dir], 12), 0) == e
  {
    hide OwnInv, EntriesOf, FirstFree, OneBlockTable, Owns, Distinct, Data, Slot;
    forall b: nat
      ensures Owns(gs.disk, gs.inodes[dir], b) <==> Owns(fs.disk, fs.inodes[dir], b) || b in [table, block]
    {
      OverflowOwns(fs, gs, dir, e, table, block, b);
      DirectOwns(fs.disk, fs.inodes[dir], b);
    }
    OverflowDistinct(fs, gs, dir, e, table, block);
    ExtendsInv(fs, gs, dir, [table, block]);
    OverflowEntry(fs, gs, dir, e, table, block);
  }

  lemma OverflowEntry(fs: Fs, gs: Fs, dir: nat, e: Entry, table: nat, block: nat)
    requires OwnInv(fs) && Overflowed(fs, gs, dir, e, table, block)
    ensures Slot(Data(gs.disk, gs.inodes[dir], 12), 0) == e
  {
    hide OwnInv, EntriesOf, FirstFree, OneBlockTable, Granted, Slot, Splice;
    OverflowBlocks(fs, gs, dir, e, table, block, 12);
    assert Read(gs.disk, block) == Splice(ZeroSector(), 0, e);
    SlotSplice(ZeroSector(), 0, e, 0);
  }

  /**
   * The second one: the old table and the block in it stay marked and belong to nobody any more, and the entry that
   * was in that block is lost with them.
   */
  lemma SecondOverflow(fs: Fs, gs: Fs, dir: nat, e: Entry, table: nat, block: nat, b: nat)
    requires OwnInv(fs) && Overflowed(fs, gs, dir, e, table, block) && fs.inodes[dir].sectors[12] != 0
    requires b != 0 && (b == fs.inodes[dir].sectors[12] || b == Block(fs.disk, fs.inodes[dir], 12))
    ensures gs.dataStart <= b < gs.dataStart + |gs.bits| && gs.bits[b - gs.dataStart] && b !in gs.reserved
    ensures !SomeoneOwns(gs, b) && !OwnInv(gs)
  {
    hide OwnInv, EntriesOf, FirstFree, OneBlockTable, Owns, Splice, Block, BitsExact;
    var n := fs.inodes[dir];
    OldBlocks(fs, dir, b);
    InodeParts(fs, dir);
    PlacedBlock(fs, n, b);
    forall j | j in gs.inodes ensures !Owns(gs.disk, gs.inodes[j], b) {
      if j == dir {
        FreshBlock(fs, gs, [table, block], dir, table);
        FreshBlock(fs, gs, [table, block], dir, block);
        OverflowOwns(fs, gs, dir, e, table, block, b);
      } else {
        TwoApart(fs, j, dir, b);
        OverflowSame(fs, gs, dir, e, table, block, j, b);
      }
    }
    NotExact(gs, b);
  }

  /** The table and the first block in it are owned, and are none of the direct blocks. */
  lemma OldBlocks(fs: Fs, dir: nat, b: nat)
    requires OwnInv(fs) && dir in fs.inodes && fs.inodes[dir].sectors[12] != 0
    requires b != 0 && (b == fs.inodes[dir].sectors[12] || b == Block(fs.disk, fs.inodes[dir], 12))
    ensures Owns(fs.disk, fs.inodes[dir], b) && forall k: nat :: k < 12 ==> fs.inodes[dir].sectors[k] != b
  {
    hide OwnInv, Placed, BitsExact, Block;
    var n := fs.inodes[dir];
    InodeParts(fs, dir);
    forall k: nat | k < 12 ensures n.sectors[k] != b {
      HoleBlock(fs.disk, n, k);
      assert Block(fs.disk, n, k) != 0 ==> Block(fs.disk, n, k) != Block(fs.disk, n, 12);
    }
  }

  lemma OverflowSame(fs: Fs, gs: Fs, dir: nat, e: Entry, table: nat, block: nat, j: nat, b: nat)
    requires OwnInv(fs) && Overflowed(fs, gs, dir, e, table, block) && j in fs.inodes && j != dir
    requires !Owns(fs.disk, fs.inodes[j], b)
    ensures !Owns(gs.disk, gs.inodes[j], b)
  {
    hide OwnInv, Owns, EntriesOf, FirstFree, Granted, OneBlockTable, Splice;
    FreshBlock(fs, gs, [table, block], j, table);
    FreshBlock(fs, gs, [table, block], j, block);
    forall c: nat | Owns(fs.disk, fs.inodes[j], c) ensures Read(fs.disk, c) == Read(gs.disk, c) {
    }
    Untouched(fs.disk, gs.disk, fs.inodes[j]);
  }

  lemma NotExact(gs: Fs, b: nat)
    requires gs.dataStart <= b < gs.dataStart + |gs.bits| && gs.bits[b - gs.dataStart] && b !in gs.reserved
    requires !SomeoneOwns(gs, b)
    ensures !OwnInv(gs)
  {
    hide Distinct, Placed, Apart, SomeoneOwns;
    var k: nat := b - gs.dataStart;
    assert gs.dataStart + k == b;
  }
}
