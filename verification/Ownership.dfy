// Which data blocks belong to which inode: the block bitmap, the direct blocks and the indirect table.

module Ownership {
  import opened Disk
  import opened Bitmaps

  /** The persistent fields of struct inode; sectors[12] is the indirect table. */
  datatype RawInode = Inode(size: nat, sectors: seq<nat>)

  type Inode = n: RawInode | |n.sectors| == 13 witness Inode(0, seq(13, _ => 0))

  /**
   * A mounted partition.  `dataStart` is the lba that bit 0 of the block bitmap stands for; `reserved` are the
   * lbas whose bits are set although no inode owns them (the padding of the last bitmap sector).
   */
  datatype Fs = Fs(disk: seq<Sector>, bits: seq<bool>, inodes: map<nat, Inode>, dataStart: nat, reserved: set<nat>)

  /** ide_read of one sector */
  function Read(disk: seq<Sector>, lba: nat): Sector {
    if lba < |disk| then disk[lba] else ZeroSector()
  }

  /** Entry k of all_blocks: a direct address, or a word of the indirect table if there is one. */
  function Block(disk: seq<Sector>, n: Inode, k: nat): nat
    requires k < 140
  {
    if k < 12 then n.sectors[k]
    else if n.sectors[12] == 0 then 0
    else Words(Read(disk, n.sectors[12]))[k - 12]
  }

  /** A data block of the inode, or its table. */
  ghost predicate Owns(disk: seq<Sector>, n: Inode, b: nat) {
    b != 0 && (b == n.sectors[12] || exists k: nat :: k < 140 && Block(disk, n, k) == b)
  }

  ghost predicate InRange(fs: Fs, b: nat) {
    fs.dataStart <= b < fs.dataStart + |fs.bits| && b < |fs.disk|
  }

  /** No block twice in one inode. */
  ghost predicate Distinct(disk: seq<Sector>, n: Inode) {
    && (forall i: nat, j: nat :: i < j < 140 && Block(disk, n, i) != 0 ==> Block(disk, n, i) != Block(disk, n, j))
    && (n.sectors[12] != 0 ==> forall i: nat :: i < 140 ==> Block(disk, n, i) != n.sectors[12])
  }

  /** A block of an inode is on the disk, its bit is set, and it is not padding. */
  ghost predicate Placed(fs: Fs, n: Inode) {
    forall b: nat :: Owns(fs.disk, n, b) ==> InRange(fs, b) && fs.bits[b - fs.dataStart] && b !in fs.reserved
  }

  ghost predicate SomeoneOwns(fs: Fs, b: nat) {
    exists i :: i in fs.inodes && Owns(fs.disk, fs.inodes[i], b)
  }

  ghost predicate Apart(fs: Fs, m: Inode, n: Inode) {
    forall b: nat :: !(Owns(fs.disk, m, b) && Owns(fs.disk, n, b))
  }

  /** A set bit stands for a reserved or an owned block, and a clear one for a sector of the disk. */
  ghost predicate BitsExact(fs: Fs) {
    && (forall k: nat :: k < |fs.bits| && fs.bits[k] ==>
        fs.dataStart + k in fs.reserved || SomeoneOwns(fs, fs.dataStart + k))
    && (forall k: nat :: k < |fs.bits| && !fs.bits[k] ==>
        fs.dataStart + k < |fs.disk| && fs.dataStart + k !in fs.reserved)
  }

  /** No block has two owners, and the bit of a block is set exactly when it is owned or reserved. */
  ghost predicate OwnInv(fs: Fs) {
    && 0 < fs.dataStart && |fs.disk| < 0x1_0000_0000
    && (forall i :: i in fs.inodes ==> Distinct(fs.disk, fs.inodes[i]) && Placed(fs, fs.inodes[i]))
    && (forall i, j :: i in fs.inodes && j in fs.inodes && i != j ==> Apart(fs, fs.inodes[i], fs.inodes[j]))
    && BitsExact(fs)
  }

  /** The sector behind entry k of all_blocks. */
  function Data(disk: seq<Sector>, n: Inode, k: nat): Sector
    requires k < 140
  {
    if Block(disk, n, k) == 0 then ZeroSector() else Read(disk, Block(disk, n, k))
  }

  /** An inode whose addresses and data are the same on two disks. */
  ghost predicate SameInode(d: seq<Sector>, e: seq<Sector>, n: Inode) {
    forall k: nat :: k < 140 ==> Block(d, n, k) == Block(e, n, k) && Data(d, n, k) == Data(e, n, k)
  }

  // ---------------------------------------------------------------- the bitmap

  function CountClear(bits: seq<bool>): nat {
    if bits == [] then 0 else CountClear(bits[1..]) + if bits[0] then 0 else 1
  }

  lemma {:induction false} CountAfterSet(bits: seq<bool>, k: nat)
    requires k < |bits| && !bits[k]
    ensures CountClear(bits[k := true]) == CountClear(bits) - 1
  {
    if k > 0 {
      assert bits[k := true][1..] == bits[1..][k - 1 := true];
      CountAfterSet(bits[1..], k - 1);
    }
  }

  lemma {:induction false} CountZero(bits: seq<bool>)
    ensures CountClear(bits) == 0 <==> FirstClear(bits) == |bits|
  {
    if bits != [] {
      CountZero(bits[1..]);
    }
  }

  /** Distinct lbas. */
  ghost predicate AllDifferent(got: seq<nat>) {
    forall i, j :: 0 <= i < j < |got| ==> got[i] != got[j]
  }

  /** `got` are distinct clear bits of `before`, as lbas; setting them gives `after`. */
  ghost predicate Granted(start: nat, before: seq<bool>, after: seq<bool>, got: seq<nat>) {
    && |before| == |after| && AllDifferent(got)
    && (forall b: nat :: b in got ==> start <= b < start + |before| && !before[b - start])
    && (forall k: nat :: k < |before| ==> (after[k] <==> before[k] || start + k in got))
  }

  /** block_bitmap_alloc extends the granted blocks by one. */
  lemma GrantMore(start: nat, before: seq<bool>, after: seq<bool>, got: seq<nat>, k: nat)
    requires Granted(start, before, after, got) && k < |after| && !after[k]
    ensures Granted(start, before, after[k := true], got + [start + k])
    ensures CountClear(after[k := true]) == CountClear(after) - 1
  {
    var x, more := start + k, got + [start + k];
    assert x !in got && !before[k];
    forall b: nat ensures b in more <==> b in got || b == x {
      InAppended(got, x, b);
    }
    assert AllDifferent(more);
    CountAfterSet(after, k);
  }

  lemma GrantNone(start: nat, bits: seq<bool>)
    ensures Granted(start, bits, bits, [])
  {
  }

  lemma InAppended(got: seq<nat>, x: nat, b: nat)
    ensures b in got + [x] <==> b in got || b == x
  {
  }

  // ---------------------------------------------------------------- what the invariant says of one inode, one block,
  // one bit

  lemma InodeParts(fs: Fs, i: nat)
    requires OwnInv(fs) && i in fs.inodes
    ensures Distinct(fs.disk, fs.inodes[i]) && Placed(fs, fs.inodes[i]) && BitsExact(fs)
  {
    hide Distinct, Placed, BitsExact, Apart;
  }

  lemma TwoApart(fs: Fs, i: nat, j: nat, b: nat)
    requires OwnInv(fs) && i in fs.inodes && j in fs.inodes && i != j
    ensures Apart(fs, fs.inodes[i], fs.inodes[j])
    ensures !(Owns(fs.disk, fs.inodes[i], b) && Owns(fs.disk, fs.inodes[j], b))
  {
    hide Distinct, Placed, BitsExact, Owns;
  }

  lemma PlacedBlock(fs: Fs, n: Inode, b: nat)
    requires Placed(fs, n) && Owns(fs.disk, n, b)
    ensures InRange(fs, b) && fs.bits[b - fs.dataStart] && b !in fs.reserved
  {
    hide Owns;
  }

  lemma ClearBit(fs: Fs, k: nat)
    requires BitsExact(fs) && k < |fs.bits| && !fs.bits[k]
    ensures fs.dataStart + k < |fs.disk| && fs.dataStart + k !in fs.reserved
  {
    hide SomeoneOwns;
  }

  // ---------------------------------------------------------------- one inode changes

  /**
   * The change every operation on one inode makes: it gains the lbas `got`, sectors change only where it owns
   * them afterwards, and nothing else moves.
   */
  ghost predicate Extends(fs: Fs, gs: Fs, ino: nat, got: seq<nat>) {
    && ino in fs.inodes && ino in gs.inodes && gs.inodes == fs.inodes[ino := gs.inodes[ino]]
    && gs.dataStart == fs.dataStart && gs.reserved == fs.reserved && |gs.disk| == |fs.disk|
    && Granted(fs.dataStart, fs.bits, gs.bits, got)
    && (forall b: nat :: Owns(gs.disk, gs.inodes[ino], b) <==> Owns(fs.disk, fs.inodes[ino], b) || b in got)
    && (forall b: nat :: b < |fs.disk| && gs.disk[b] != fs.disk[b] ==> Owns(gs.disk, gs.inodes[ino], b))
  }

  /** Sectors an inode does not own may change under it without effect. */
  lemma Untouched(d: seq<Sector>, e: seq<Sector>, n: Inode)
    requires |d| == |e| && forall b: nat :: Owns(d, n, b) ==> Read(d, b) == Read(e, b)
    ensures SameInode(d, e, n)
    ensures forall b: nat :: Owns(e, n, b) <==> Owns(d, n, b)
  {
    assert n.sectors[12] != 0 ==> Owns(d, n, n.sectors[12]);
    forall k: nat | k < 140 ensures Block(d, n, k) == Block(e, n, k) && Data(d, n, k) == Data(e, n, k) {
      assert Block(d, n, k) == Block(e, n, k);
      assert Block(d, n, k) != 0 ==> Owns(d, n, Block(d, n, k));
    }
    forall b: nat ensures Owns(e, n, b) <==> Owns(d, n, b) {
      if Owns(d, n, b) && b != n.sectors[12] {
        var k: nat :| k < 140 && Block(d, n, k) == b;
        assert Block(e, n, k) == b;
      }
      if Owns(e, n, b) && b != n.sectors[12] {
        var k: nat :| k < 140 && Block(e, n, k) == b;
        assert Block(d, n, k) == b;
      }
    }
  }

  lemma OthersSame(fs: Fs, gs: Fs, ino: nat, got: seq<nat>, j: nat)
    requires OwnInv(fs) && Extends(fs, gs, ino, got) && j in fs.inodes && j != ino
    ensures SameInode(fs.disk, gs.disk, fs.inodes[j])
    ensures forall b: nat :: Owns(gs.disk, fs.inodes[j], b) <==> Owns(fs.disk, fs.inodes[j], b)
    ensures Distinct(gs.disk, fs.inodes[j]) && Placed(gs, fs.inodes[j]) && Apart(gs, fs.inodes[j], gs.inodes[ino])
  {
    hide OwnInv, Distinct, Owns;
    var n := fs.inodes[j];
    InodeParts(fs, j);
    forall b: nat | Owns(fs.disk, n, b)
      ensures Read(fs.disk, b) == Read(gs.disk, b) && !Owns(gs.disk, gs.inodes[ino], b)
    {
      OtherBlock(fs, gs, ino, got, j, b);
    }
    Untouched(fs.disk, gs.disk, n);
    OtherPlaced(fs, gs, ino, got, n);
    SameDistinct(fs.disk, gs.disk, n);
  }

  /** A block of another inode is not among the new ones and was not written. */
  lemma OtherBlock(fs: Fs, gs: Fs, ino: nat, got: seq<nat>, j: nat, b: nat)
    requires OwnInv(fs) && Extends(fs, gs, ino, got) && j in fs.inodes && j != ino && Owns(fs.disk, fs.inodes[j], b)
    ensures Read(fs.disk, b) == Read(gs.disk, b) && !Owns(gs.disk, gs.inodes[ino], b)
  {
    hide OwnInv, Distinct, Owns, BitsExact;
    InodeParts(fs, j);
    TwoApart(fs, j, ino, b);
    PlacedBlock(fs, fs.inodes[j], b);
    assert b !in got;
  }

  lemma OtherPlaced(fs: Fs, gs: Fs, ino: nat, got: seq<nat>, n: Inode)
    requires Extends(fs, gs, ino, got) && Placed(fs, n)
    requires forall b: nat :: Owns(gs.disk, n, b) <==> Owns(fs.disk, n, b)
    ensures Placed(gs, n)
  {
    hide Owns;
    forall b: nat | Owns(gs.disk, n, b) ensures InRange(gs, b) && gs.bits[b - gs.dataStart] && b !in gs.reserved {
      PlacedBlock(fs, n, b);
      var k: nat := b - fs.dataStart;
      assert fs.bits[k];
    }
  }

  lemma SameDistinct(d: seq<Sector>, e: seq<Sector>, n: Inode)
    requires SameInode(d, e, n) && Distinct(d, n)
    ensures Distinct(e, n)
  {
    hide Block;
  }

  lemma ExtendsBits(fs: Fs, gs: Fs, ino: nat, got: seq<nat>)
    requires BitsExact(fs) && Extends(fs, gs, ino, got)
    requires forall j, b: nat :: j in fs.inodes && j != ino && Owns(fs.disk, fs.inodes[j], b) ==>
             Owns(gs.disk, fs.inodes[j], b)
    ensures BitsExact(gs)
  {
    hide Owns;
    forall k: nat | k < |gs.bits| && !gs.bits[k] ensures !fs.bits[k] {
    }
    forall k: nat | k < |gs.bits| && gs.bits[k]
      ensures gs.dataStart + k in gs.reserved || SomeoneOwns(gs, gs.dataStart + k)
    {
      StillOwned(fs, gs, ino, got, k);
    }
  }

  lemma StillOwned(fs: Fs, gs: Fs, ino: nat, got: seq<nat>, k: nat)
    requires BitsExact(fs) && Extends(fs, gs, ino, got) && k < |gs.bits| && gs.bits[k]
    requires forall j, b: nat :: j in fs.inodes && j != ino && Owns(fs.disk, fs.inodes[j], b) ==>
             Owns(gs.disk, fs.inodes[j], b)
    ensures gs.dataStart + k in gs.reserved || SomeoneOwns(gs, gs.dataStart + k)
  {
    hide Owns;
    var b := gs.dataStart + k;
    if b in got {
      assert Owns(gs.disk, gs.inodes[ino], b);
    } else if b !in gs.reserved {
      assert fs.bits[k] && SomeoneOwns(fs, b);
      var i :| i in fs.inodes && Owns(fs.disk, fs.inodes[i], b);
      assert Owns(gs.disk, gs.inodes[i], b);
    }
  }

  /** Freshly allocated blocks are on the disk and nobody's. */
  lemma GotPlaced(fs: Fs, after: seq<bool>, got: seq<nat>, b: nat)
    requires BitsExact(fs) && Granted(fs.dataStart, fs.bits, after, got) && b in got
    ensures InRange(fs, b) && after[b - fs.dataStart] && !fs.bits[b - fs.dataStart] && b !in fs.reserved
  {
    var k: nat := b - fs.dataStart;
    assert fs.dataStart + k == b;
  }

  lemma ExtendsPlaced(fs: Fs, gs: Fs, ino: nat, got: seq<nat>)
    requires Extends(fs, gs, ino, got) && Placed(fs, fs.inodes[ino]) && BitsExact(fs)
    ensures Placed(gs, gs.inodes[ino])
  {
    forall b: nat | Owns(gs.disk, gs.inodes[ino], b)
      ensures InRange(gs, b) && gs.bits[b - gs.dataStart] && b !in gs.reserved
    {
      if b in got {
        GotPlaced(fs, gs.bits, got, b);
      } else {
        assert Owns(fs.disk, fs.inodes[ino], b);
      }
    }
  }

  /** Such a change keeps the ownership invariant, and leaves every other inode as it was. */
  lemma ExtendsInv(fs: Fs, gs: Fs, ino: nat, got: seq<nat>)
    requires OwnInv(fs) && Extends(fs, gs, ino, got) && Distinct(gs.disk, gs.inodes[ino])
    ensures OwnInv(gs)
    ensures forall j :: j in fs.inodes && j != ino ==>
            SameInode(fs.disk, gs.disk, fs.inodes[j]) && gs.inodes[j] == fs.inodes[j]
  {
    hide Distinct, Placed, SameInode, BitsExact;
    forall j | j in fs.inodes && j != ino
      ensures SameInode(fs.disk, gs.disk, fs.inodes[j])
      ensures forall b: nat :: Owns(gs.disk, fs.inodes[j], b) <==> Owns(fs.disk, fs.inodes[j], b)
      ensures Distinct(gs.disk, fs.inodes[j]) && Placed(gs, fs.inodes[j]) && Apart(gs, fs.inodes[j], gs.inodes[ino])
    {
      OthersSame(fs, gs, ino, got, j);
    }
    ExtendsBits(fs, gs, ino, got);
    ExtendsPlaced(fs, gs, ino, got);
    hide Owns, Granted;
    forall i, j | i in gs.inodes && j in gs.inodes && i != j ensures Apart(gs, gs.inodes[i], gs.inodes[j]) {
      if i != ino && j != ino {
        assert Apart(fs, fs.inodes[i], fs.inodes[j]);
      }
    }
  }

  // ---------------------------------------------------------------- blocks given back

  /**
   * The change of a deallocation: the inodes other than `ino` keep their records, `ino` is gone or owns less, the
   * bits of exactly the blocks it lost are cleared, and no sector is written.
   */
  ghost predicate Shrinks(fs: Fs, gs: Fs, ino: nat) {
    && ino in fs.inodes && gs.disk == fs.disk && gs.dataStart == fs.dataStart && gs.reserved == fs.reserved
    && |gs.bits| == |fs.bits|
    && (forall j :: j in gs.inodes ==> j in fs.inodes && (j != ino ==> gs.inodes[j] == fs.inodes[j]))
    && (forall j :: j in fs.inodes && j != ino ==> j in gs.inodes)
    && (forall b: nat :: StillHas(gs, ino, b) ==> Owns(fs.disk, fs.inodes[ino], b))
    && (forall k: nat :: k < |fs.bits| ==> (gs.bits[k] <==> fs.bits[k] && !Lost(fs, gs, ino, fs.dataStart + k)))
  }

  ghost predicate StillHas(gs: Fs, ino: nat, b: nat) {
    ino in gs.inodes && Owns(gs.disk, gs.inodes[ino], b)
  }

  ghost predicate Lost(fs: Fs, gs: Fs, ino: nat, b: nat)
    requires ino in fs.inodes
  {
    Owns(fs.disk, fs.inodes[ino], b) && !StillHas(gs, ino, b)
  }

  lemma ShrinkPlaced(fs: Fs, gs: Fs, ino: nat, j: nat)
    requires OwnInv(fs) && Shrinks(fs, gs, ino) && j in gs.inodes
    ensures Placed(gs, gs.inodes[j])
  {
    hide OwnInv, Owns, Shrinks;
    forall b: nat | Owns(gs.disk, gs.inodes[j], b)
      ensures InRange(gs, b) && gs.bits[b - gs.dataStart] && b !in gs.reserved
    {
      ShrinkBlock(fs, gs, ino, j, b);
    }
  }

  /** A block that some inode still has was its own before, and its bit was not cleared. */
  lemma ShrinkBlock(fs: Fs, gs: Fs, ino: nat, j: nat, b: nat)
    requires OwnInv(fs) && Shrinks(fs, gs, ino) && j in gs.inodes && Owns(gs.disk, gs.inodes[j], b)
    ensures InRange(gs, b) && gs.bits[b - gs.dataStart] && b !in gs.reserved
  {
    hide OwnInv, Owns, Distinct, BitsExact, Placed;
    assert j == ino ==> StillHas(gs, ino, b);
    assert Owns(fs.disk, fs.inodes[j], b);
    InodeParts(fs, j);
    PlacedBlock(fs, fs.inodes[j], b);
    if j != ino {
      TwoApart(fs, j, ino, b);
    }
    assert !Lost(fs, gs, ino, b);
    var k: nat := b - fs.dataStart;
    assert fs.dataStart + k == b;
  }

  lemma ShrinkBits(fs: Fs, gs: Fs, ino: nat)
    requires OwnInv(fs) && Shrinks(fs, gs, ino)
    ensures BitsExact(gs)
  {
    hide OwnInv, Owns, SomeoneOwns;
    forall k: nat | k < |gs.bits| && gs.bits[k]
      ensures gs.dataStart + k in gs.reserved || SomeoneOwns(gs, gs.dataStart + k)
    {
      ShrinkSet(fs, gs, ino, k);
    }
    forall k: nat | k < |gs.bits| && !gs.bits[k]
      ensures gs.dataStart + k < |gs.disk| && gs.dataStart + k !in gs.reserved
    {
      ShrinkClear(fs, gs, ino, k);
    }
  }

  lemma ShrinkSet(fs: Fs, gs: Fs, ino: nat, k: nat)
    requires OwnInv(fs) && Shrinks(fs, gs, ino) && k < |gs.bits| && gs.bits[k]
    ensures gs.dataStart + k in gs.reserved || SomeoneOwns(gs, gs.dataStart + k)
  {
    hide Owns, Distinct, Placed, Apart;
    var b := gs.dataStart + k;
    if b !in gs.reserved {
      assert SomeoneOwns(fs, b);
      var i :| i in fs.inodes && Owns(fs.disk, fs.inodes[i], b);
      assert i == ino ==> StillHas(gs, ino, b);
      assert i in gs.inodes && Owns(gs.disk, gs.inodes[i], b);
    }
  }

  lemma ShrinkClear(fs: Fs, gs: Fs, ino: nat, k: nat)
    requires OwnInv(fs) && Shrinks(fs, gs, ino) && k < |gs.bits| && !gs.bits[k]
    ensures gs.dataStart + k < |gs.disk| && gs.dataStart + k !in gs.reserved
  {
    hide OwnInv, Owns, Distinct, Placed, BitsExact;
    InodeParts(fs, ino);
    if fs.bits[k] {
      assert Lost(fs, gs, ino, fs.dataStart + k);
      PlacedBlock(fs, fs.inodes[ino], fs.dataStart + k);
    } else {
      ClearBit(fs, k);
    }
  }

  /** A deallocation keeps the ownership invariant. */
  lemma ShrinksInv(fs: Fs, gs: Fs, ino: nat)
    requires OwnInv(fs) && Shrinks(fs, gs, ino) && (ino in gs.inodes ==> Distinct(gs.disk, gs.inodes[ino]))
    ensures OwnInv(gs)
  {
    hide Owns, Distinct, BitsExact, Placed;
    ShrinkBits(fs, gs, ino);
    forall j | j in gs.inodes ensures Distinct(gs.disk, gs.inodes[j]) && Placed(gs, gs.inodes[j]) {
      ShrinkPlaced(fs, gs, ino, j);
      assert j != ino ==> Distinct(fs.disk, fs.inodes[j]);
    }
    forall i, j | i in gs.inodes && j in gs.inodes && i != j ensures Apart(gs, gs.inodes[i], gs.inodes[j]) {
      assert Apart(fs, fs.inodes[i], fs.inodes[j]);
      forall b: nat ensures !(Owns(gs.disk, gs.inodes[i], b) && Owns(gs.disk, gs.inodes[j], b)) {
        assert i == ino && Owns(gs.disk, gs.inodes[i], b) ==> StillHas(gs, ino, b);
        assert j == ino && Owns(gs.disk, gs.inodes[j], b) ==> StillHas(gs, ino, b);
      }
    }
  }

  /** The bitmap is a function of the owners: partitions with the same owned blocks have the same bitmap. */
  lemma BitsDetermined(fs: Fs, gs: Fs)
    requires OwnInv(fs) && OwnInv(gs) && |fs.bits| == |gs.bits| && fs.dataStart == gs.dataStart
    requires fs.reserved == gs.reserved
    requires forall b: nat :: SomeoneOwns(fs, b) <==> SomeoneOwns(gs, b)
    ensures fs.bits == gs.bits
  {
    hide Owns, Distinct;
    forall k: nat | k < |fs.bits| ensures fs.bits[k] == gs.bits[k] {
      BitMeans(fs, k);
      BitMeans(gs, k);
    }
  }

  /** A bit is set exactly when its block is reserved or owned. */
  lemma BitMeans(fs: Fs, k: nat)
    requires OwnInv(fs) && k < |fs.bits|
    ensures fs.bits[k] <==> fs.dataStart + k in fs.reserved || SomeoneOwns(fs, fs.dataStart + k)
  {
    hide Owns, Distinct;
    var b := fs.dataStart + k;
    if SomeoneOwns(fs, b) {
      var i :| i in fs.inodes && Owns(fs.disk, fs.inodes[i], b);
      assert Placed(fs, fs.inodes[i]) && InRange(fs, b);
    }
  }
}
