// fs/file.c: file_write and file_read over the block bitmap, the inodes and the sectors of a partition.

module FileSystem {
  import opened Disk
  import opened Bitmaps
  import opened Ownership
  import opened Records
  import opened Files

  /** WriteHalted, ReadHalted: an ASSERT stops the kernel (a full bitmap, or a size beyond the block limit). */
  datatype WriteResult = WriteHalted | TooBig | Written(count: nat)

  datatype ReadResult = ReadHalted | EndOfFile | Bytes(data: seq<Byte>)

  /** Blocks a write has to allocate: a first block, the growth, and the table when it is first needed. */
  function Needed(n: Inode, count: nat): nat {
    var has, will := n.size / 512 + 1, (n.size + count) / 512 + 1;
    (if n.sectors[0] == 0 then 1 else 0) + (will - has) + if has <= 12 < will then 1 else 0
  }

  /** An inode and its bytes did not change. */
  ghost predicate KeptFile(fs: Fs, gs: Fs, j: nat) {
    j in fs.inodes && j in gs.inodes && gs.inodes[j] == fs.inodes[j] && SameInode(fs.disk, gs.disk, fs.inodes[j])
  }

  ghost predicate OthersKept(fs: Fs, gs: Fs, ino: nat) {
    forall j :: j in fs.inodes && j != ino ==> KeptFile(fs, gs, j)
  }

  /** The layout of a partition does not change. */
  ghost predicate SameShape(fs: Fs, gs: Fs) {
    gs.dataStart == fs.dataStart && gs.reserved == fs.reserved && |gs.bits| == |fs.bits| && |gs.disk| == |fs.disk|
  }

  lemma KeptTrans(fs: Fs, gs: Fs, hs: Fs, ino: nat)
    requires OthersKept(fs, gs, ino) && OthersKept(gs, hs, ino)
    ensures OthersKept(fs, hs, ino)
  {
    forall j | j in fs.inodes && j != ino ensures KeptFile(fs, hs, j) {
      assert KeptFile(fs, gs, j) && KeptFile(gs, hs, j);
    }
  }

  /** struct file: fd_inode by its number, and fd_pos. */
  class OpenFile {
    const ino: nat
    var pos: nat

    constructor (ino: nat)
      ensures this.ino == ino && pos == 0
    {
      this.ino, pos := ino, 0;
    }
  }

  class Partition {
    var disk: seq<Sector>
    var bits: seq<bool>
    var ibits: seq<bool>              // the inode bitmap
    var inodes: map<nat, Inode>
    var synced: InodeSlots             // the inode table as inode_sync and inode_delete left it
    var open: set<nat>                // numbers of the inodes that are in memory
    const dataStart: nat
    ghost const reserved: set<nat>

    constructor (disk: seq<Sector>, bits: seq<bool>, ibits: seq<bool>, inodes: map<nat, Inode>, synced: InodeSlots,
                 dataStart: nat, ghost reserved: set<nat>)
      ensures State() == Fs(disk, bits, inodes, dataStart, reserved) && this.ibits == ibits && this.synced == synced
      ensures open == {}
    {
      this.disk, this.bits, this.ibits, this.inodes, this.synced, this.open := disk, bits, ibits, inodes, synced, {};
      this.dataStart, this.reserved := dataStart, reserved;
    }

    ghost function State(): Fs
      reads this
    {
      Fs(disk, bits, inodes, dataStart, reserved)
    }

    /** block_bitmap_alloc: the scan halts on a full bitmap, so -1 never comes back */
    method AllocBlock() returns (ok: bool, lba: nat)
      modifies this`bits
      ensures !ok ==> bits == old(bits) && CountClear(bits) == 0
      ensures ok ==> FirstClear(old(bits)) < |old(bits)| && lba == dataStart + FirstClear(old(bits))
      ensures ok ==> bits == old(bits)[FirstClear(old(bits)) := true]
    {
      var k := FirstClear(bits);
      CountZero(bits);
      lba := dataStart + k;
      if k == |bits| {
        return false, lba;
      }
      bits := bits[k := true];
      return true, lba;
    }

    /** The loops that allocate blocks from..to: direct ones go to i_sectors too, and ASSERT finds them unset. */
    method AllocRange(all: array<nat>, sectors0: seq<nat>, from: nat, to: nat, ghost before: seq<bool>,
                      ghost got0: seq<nat>)
      returns (ok: bool, sectors: seq<nat>, ghost got: seq<nat>)
      requires from <= to <= all.Length && |sectors0| == 13 && Granted(dataStart, before, bits, got0)
      requires forall k :: from <= k < to && k < 12 ==> sectors0[k] == 0
      requires CountClear(bits) == CountClear(before) - |got0|
      modifies this`bits, all
      ensures ok ==> |got| == to - from && Granted(dataStart, before, bits, got0 + got)
      ensures ok ==> CountClear(bits) == CountClear(before) - |got0 + got|
      ensures ok ==> all[..] == Patch(old(all[..]), from, got)
      ensures ok ==> sectors == PatchDirect(sectors0, from, got)
      ensures ok <==> CountClear(old(bits)) >= to - from
    {
      hide Granted, CountClear, FirstClear;
      var k := from;
      got, sectors := [], sectors0;
      assert got0 + [] == got0;
      while k < to
        invariant from <= k <= to && |got| == k - from && |sectors| == 13
        invariant Granted(dataStart, before, bits, got0 + got)
        invariant CountClear(bits) == CountClear(before) - |got0 + got|
        invariant forall j :: 0 <= j < all.Length ==> all[j] == if from <= j < k then got[j - from] else old(all[j])
        invariant forall j :: 0 <= j < 13 ==>
                    sectors[j] == if from <= j < k && j < 12 then got[j - from] else sectors0[j]
      {
        ghost var was := bits;
        var more, lba := AllocBlock();
        if !more {
          return false, sectors, got;
        }
        GrantMore(dataStart, before, was, got0 + got, FirstClear(was));
        if k < 12 {
          assert sectors[k] == 0;
          sectors := sectors[k := lba];
        }
        all[k] := lba;
        assert got0 + (got + [lba]) == got0 + got + [lba];
        got := got + [lba];
        k := k + 1;
      }
      return true, sectors, got;
    }

    /** ide_read of the indirect table into all_blocks + 12 */
    method LoadTable(all: array<nat>, table: nat)
      requires all.Length == 140
      modifies all
      ensures all[..] == old(all[..12]) + Words(Read(disk, table))
    {
      var words := Words(Read(disk, table));
      var i := 0;
      while i < 128
        invariant 0 <= i <= 128
        invariant forall k :: 0 <= k < 12 ==> all[k] == old(all[k])
        invariant forall k: nat :: 12 <= k < 12 + i ==> all[k] == words[k - 12]
      {
        all[12 + i] := words[i];
        i := i + 1;
      }
    }

    /** The allocation of the indirect table. */
    method AllocTable() returns (ok: bool, table: nat)
      modifies this`bits
      ensures ok <==> CountClear(old(bits)) >= 1
      ensures ok ==> Granted(dataStart, old(bits), bits, [table]) && CountClear(bits) == CountClear(old(bits)) - 1
      ensures !ok ==> bits == old(bits)
    {
      ghost var before := bits;
      ok, table := AllocBlock();
      if ok {
        GrantMore(dataStart, before, before, [], FirstClear(before));
        assert [] + [table] == [table];
      }
    }

    /** Situation 1 of file_write: twelve direct blocks are enough. */
    method GrowDirect(ino: nat, all: array<nat>, has: nat, will: nat) returns (ok: bool)
      requires OwnInv(State()) && ino in inodes && 1 <= has <= will <= 12
      requires HoldsBlocks(disk, inodes[ino], has)
      requires all.Length == 140 && all[..] == seq(140, _ => 0)
      modifies this`bits, this`disk, this`inodes, all
      ensures ok <==> CountClear(old(bits)) >= will - has
      ensures ok ==> GrownTo(old(State()), State(), ino, has, will, will - has, all[..])
    {
      ghost var fs := State();
      var n := inodes[ino];
      hide OwnInv, HoldsBlocks, GrownTo, Granted, CountClear, Block, Words, Unwords, Patch, PatchDirect;
      DirectFacts(disk, n, has);
      assert n.sectors[has - 1] != 0;
      all[has - 1] := n.sectors[has - 1];
      ghost var all0 := all[..];
      assert all0[12..140] == seq(128, _ => 0);
      var sectors;
      ghost var got;
      GrantNone(dataStart, bits);
      ok, sectors, got := AllocRange(all, n.sectors, has, will, bits, []);
      if ok {
        inodes := inodes[ino := n.(sectors := sectors)];
        assert [] + got == got;
        GrewDirect(fs, State(), ino, has, will, got, all0);
      }
    }

    /** Situation 2: the old data is in direct blocks, the new data needs the table. */
    method GrowAcross(ino: nat, all: array<nat>, has: nat, will: nat) returns (ok: bool)
      requires OwnInv(State()) && ino in inodes && 1 <= has <= 12 < will <= 140
      requires HoldsBlocks(disk, inodes[ino], has)
      requires all.Length == 140 && all[..] == seq(140, _ => 0)
      modifies this`bits, this`disk, this`inodes, all
      ensures ok <==> CountClear(old(bits)) >= will - has + 1
      ensures ok ==> GrownTo(old(State()), State(), ino, has, will, will - has + 1, all[..])
    {
      ghost var fs := State();
      var n := inodes[ino];
      hide OwnInv, HoldsBlocks, GrownTo, Granted, CountClear, Block, Words, Unwords, Patch, PatchDirect;
      DirectFacts(disk, n, has);
      all[has - 1] := n.sectors[has - 1];
      var more, table := AllocTable();
      if !more {
        return false;
      }
      assert n.sectors[12] == 0;
      ok := FillAcross(ino, all, table, has, will, fs);
    }

    /** Situation 2, after the table was allocated: the blocks, then the table sector. */
    method FillAcross(ino: nat, all: array<nat>, table: nat, has: nat, will: nat, ghost fs: Fs) returns (ok: bool)
      requires OwnInv(fs) && ino in fs.inodes && 1 <= has <= 12 < will <= 140
      requires HoldsBlocks(fs.disk, fs.inodes[ino], has) && State() == fs.(bits := bits)
      requires Granted(dataStart, fs.bits, bits, [table]) && CountClear(bits) == CountClear(fs.bits) - 1
      requires all.Length == 140 && all[12..] == seq(128, _ => 0) && all[has - 1] == fs.inodes[ino].sectors[has - 1]
      modifies this`bits, this`disk, this`inodes, all
      ensures ok <==> CountClear(fs.bits) >= will - has + 1
      ensures ok ==> GrownTo(fs, State(), ino, has, will, will - has + 1, all[..])
    {
      var n := inodes[ino];
      hide OwnInv, HoldsBlocks, GrownTo, Granted, CountClear, Block, Words, Unwords, Patch, PatchDirect, TableOf;
      DirectFacts(disk, n, has);
      ghost var all0 := all[..];
      assert all0[12..140] == all[12..];
      var sectors0 := n.sectors[12 := table];
      var sectors;
      ghost var got;
      ok, sectors, got := AllocRange(all, sectors0, has, will, fs.bits, [table]);
      if ok {
        TableOnDisk(fs, bits, table, [table] + got);
        inodes := inodes[ino := n.(sectors := sectors)];
        disk := disk[table := Unwords(all[12..140])];
        GrewAcross(fs, State(), ino, has, will, table, got, all0);
      }
    }

    /** Situation 3: the table is there; it is read, extended and written back. */
    method GrowIndirect(ino: nat, all: array<nat>, has: nat, will: nat) returns (ok: bool)
      requires OwnInv(State()) && ino in inodes && 12 < has <= will <= 140
      requires HoldsBlocks(disk, inodes[ino], has)
      requires all.Length == 140 && all[..] == seq(140, _ => 0)
      modifies this`bits, this`disk, this`inodes, all
      ensures ok <==> CountClear(old(bits)) >= will - has
      ensures ok ==> GrownTo(old(State()), State(), ino, has, will, will - has, all[..])
    {
      ghost var fs := State();
      var n := inodes[ino];
      hide OwnInv, HoldsBlocks, GrownTo, Granted, CountClear, Block, Words, Unwords, Patch, PatchDirect;
      TableFacts(fs, ino, has);
      assert n.sectors[12] != 0;
      var table := n.sectors[12];
      LoadTable(all, table);
      ghost var all0 := all[..];
      var sectors;
      ghost var got;
      GrantNone(dataStart, bits);
      ok, sectors, got := AllocRange(all, n.sectors, has, will, bits, []);
      if ok {
        inodes := inodes[ino := n.(sectors := sectors)];
        disk := disk[table := Unwords(all[12..140])];
        assert [] + got == got;
        Grew(fs, State(), ino, has, will, got, false, all0, n.sectors);
      }
    }

    /**
     * The first write to a file gives it its first block; ASSERT finds that it is not block 0, the root directory's.
     */
    method FirstBlock(ino: nat) returns (ok: bool)
      requires OwnInv(State()) && RootBit(bits) && ino in inodes && FileOk(disk, inodes[ino])
      modifies this`bits, this`inodes
      ensures inodes.Keys == old(inodes.Keys) && (ok <==> inodes[ino].sectors[0] != 0)
      ensures ok <==> old(inodes[ino]).sectors[0] != 0 || CountClear(old(bits)) >= 1
      ensures ok ==> Prepared(old(State()), State(), ino)
    {
      ghost var fs := State();
      var n := inodes[ino];
      if n.sectors[0] != 0 {
        KeptSelf(fs, ino);
        return true;
      }
      CountZero(bits);
      var more, lba := AllocBlock();
      if !more {
        return false;
      }
      assert lba - dataStart != 0;
      inodes := inodes[ino := n.(sectors := n.sectors[0 := lba])];
      FirstGrant(fs, State(), ino, lba);
      return true;
    }

    /** The five ways in which file_write collects block addresses into all_blocks. */
    method Collect(ino: nat, all: array<nat>, has: nat, will: nat) returns (ok: bool)
      requires OwnInv(State()) && ino in inodes && 1 <= has <= will <= 140
      requires HoldsBlocks(disk, inodes[ino], has)
      requires all.Length == 140 && all[..] == seq(140, _ => 0)
      modifies this`bits, this`disk, this`inodes, all
      ensures ok <==> CountClear(old(bits)) >= Growth(has, will)
      ensures ok ==> GrownTo(old(State()), State(), ino, has, will, Growth(has, will), all[..])
    {
      hide OwnInv, CountClear, Words;
      if has == will {
        if has <= 12 {
          all[has - 1] := inodes[ino].sectors[has - 1];
        } else {
          TableFacts(State(), ino, has);
          assert inodes[ino].sectors[12] != 0;
          LoadTable(all, inodes[ino].sectors[12]);
        }
        KeptSelf(State(), ino);
        return true;
      } else if will <= 12 {
        ok := GrowDirect(ino, all, has, will);
      } else if has <= 12 {
        ok := GrowAcross(ino, all, has, will);
      } else {
        ok := GrowIndirect(ino, all, has, will);
      }
    }

    /** One trip of the write loop: io_buf is cleared, merged with the sector on the first trip, and written. */
    method WriteChunk(f: OpenFile, all: array<nat>, k: nat, off: nat, chunk: seq<Byte>, first: bool,
                      ghost fs: Fs, ghost start: nat, ghost will: nat, ghost done: seq<Byte>)
      requires all.Length == 140 && Midway(fs, State(), f.ino, all[..], start, will, done)
      requires start <= k < will && inodes[f.ino].size == 512 * k + off && off < 512
      requires off + |chunk| <= 512 && inodes[f.ino].size + |chunk| <= MAX_SIZE
      requires first || off == 0
      modifies this`disk, this`inodes
      ensures Midway(fs, State(), f.ino, all[..], start, will, done + chunk)
    {
      hide Midway, Block, Data, Splice, OwnInv, Read;
      ghost var gs := State();
      MidwayLba(fs, gs, f.ino, all[..], start, will, done, k);
      var n := inodes[f.ino];
      var io: Sector := ZeroSector();
      var lba := all[k];
      if first {
        io := Read(disk, lba);
      }
      disk := disk[lba := Splice(io, off, chunk)];
      inodes := inodes[f.ino := n.(size := n.size + |chunk|)];
      MidwayStep(fs, gs, State(), f.ino, all[..], start, will, done, k, off, chunk, io);
    }

    /** The write loop: one sector a trip. */
    method WriteLoop(f: OpenFile, all: array<nat>, buf: seq<Byte>, ghost start: nat, ghost will: nat)
      requires f.ino in inodes && all.Length == 140 && inodes[f.ino].size + |buf| <= MAX_SIZE
      requires start == inodes[f.ino].size / 512 && will == (inodes[f.ino].size + |buf|) / 512 + 1
      requires Midway(State(), State(), f.ino, all[..], start, will, []) && f.pos == Wrap(f.pos)
      modifies this`disk, this`inodes, f`pos
      ensures Midway(old(State()), State(), f.ino, all[..], start, will, buf)
      ensures f.pos == Wrap(old(f.pos) + |buf|)
    {
      hide Midway, Wrap, Aligned;
      ghost var fs, size0 := State(), inodes[f.ino].size;
      var written, first, pos := 0, true, f.pos;
      assert buf[..0] == [];
      while written < |buf|
        invariant 0 <= written <= |buf|
        invariant Midway(fs, State(), f.ino, all[..], start, will, buf[..written])
        invariant first || Aligned(size0 + written) || written == |buf|
        invariant f.pos == Wrap(pos + written)
      {
        MidwaySize(fs, State(), f.ino, all[..], start, will, buf[..written]);
        var size := inodes[f.ino].size;
        var k, off := Sec(size), Off(size);
        var left := 512 - off;
        var count := if |buf| - written < left then |buf| - written else left;
        WriteRange(size0, size, |buf|, will, count);
        WriteChunk(f, all, k, off, buf[written..written + count], first, fs, start, will, buf[..written]);
        assert buf[..written] + buf[written..written + count] == buf[..written + count];
        first := false;
        PosStep(pos, written, count);
        f.pos := Wrap(f.pos + count);
        written := written + count;
      }
      assert buf[..|buf|] == buf;
    }

    /** The end of file_write, once the block addresses are collected: the position, the loop and inode_sync. */
    method WriteBytes(f: OpenFile, all: array<nat>, buf: seq<Byte>, has: nat, will: nat, ghost fs: Fs, ghost ps: Fs)
      requires f.ino in fs.inodes && f.ino in ps.inodes && f.ino in inodes && all.Length == 140 && has <= will
      requires has == fs.inodes[f.ino].size / 512 + 1 && will == (fs.inodes[f.ino].size + |buf|) / 512 + 1
      requires inodes[f.ino].size == ps.inodes[f.ino].size == fs.inodes[f.ino].size
      requires fs.inodes[f.ino].size + |buf| <= MAX_SIZE && RootBit(fs.bits) && Prepared(fs, ps, f.ino)
      requires GrownTo(ps, State(), f.ino, has, will, Growth(has, will), all[..])
      modifies this`disk, this`inodes, this`synced, f`pos
      ensures Wrote(fs, State(), f.ino, buf) && f.pos == Wrap(fs.inodes[f.ino].size + |buf| - 1)
      ensures f.ino in inodes && synced == Synced(old(synced), f.ino, inodes[f.ino])
    {
      hide OwnInv, CountClear, Prepared, GrownTo, Midway, FileOk, Wrote, RootBit, HoldsBlocks, Wrap, Synced;
      ghost var gs := State();
      var size: int := inodes[f.ino].size;
      PosEnd(size, |buf|);
      GrownMidway(ps, gs, f.ino, has, will, all[..]);
      f.pos := Wrap(size - 1);
      WriteLoop(f, all, buf, has - 1, will);
      MidwaySize(gs, State(), f.ino, all[..], has - 1, will, buf);
      WriteDone(fs, ps, gs, State(), f.ino, has, will, all[..], buf);
      synced := Synced(synced, f.ino, inodes[f.ino]);
    }

    /** file_write */
    method FileWrite(f: OpenFile, buf: seq<Byte>) returns (r: WriteResult)
      requires OwnInv(State()) && RootBit(bits) && f.ino in inodes && FileOk(disk, inodes[f.ino])
      requires |buf| <= 0xc000_0000
      modifies this`bits, this`disk, this`inodes, this`synced, f`pos
      ensures r.TooBig? <==> old(inodes[f.ino]).size + |buf| > 71680
      ensures r.TooBig? ==> State() == old(State()) && synced == old(synced) && f.pos == old(f.pos)
      ensures !r.TooBig? ==> (r.WriteHalted? <==> WriteHalts(old(State()), f.ino, |buf|))
      ensures r.Written? ==> r.count == |buf| && Wrote(old(State()), State(), f.ino, buf)
      ensures r.Written? ==> f.pos == Wrap(old(inodes[f.ino]).size + |buf| - 1)
      ensures r.Written? ==> synced == Synced(old(synced), f.ino, inodes[f.ino])
    {
      ghost var fs := State();
      hide OwnInv, CountClear, Prepared, GrownTo, Midway, FileOk, Wrote, RootBit, HoldsBlocks, Wrap, Synced;
      var size := inodes[f.ino].size;
      FileSmall(disk, inodes[f.ino]);
      SizeFits(size, |buf|);
      if Wrap(size + |buf|) > 71680 {
        return TooBig;
      }
      var all := new nat[140](_ => 0);
      var ok := FirstBlock(f.ino);
      if !ok {
        return WriteHalted;
      }
      ghost var ps := State();
      PreparedFacts(fs, ps, f.ino);
      var has, will := size / 512 + 1, (size + |buf|) / 512 + 1;
      if will > 140 {
        return WriteHalted;
      }
      ok := Collect(f.ino, all, has, will);
      if !ok {
        return WriteHalted;
      }
      GrownSize(ps, State(), f.ino, has, will, Growth(has, will), all[..]);
      WriteBytes(f, all, buf, has, will, fs, ps);
      return Written(|buf|);
    }

    /** The block addresses file_read collects, in the source's four cases. */
    method CollectRead(n: Inode, all: array<nat>, first: nat, last: nat)
      requires all.Length == 140 && first <= last < 139
      requires last >= 12 ==> n.sectors[12] != 0
      modifies all
      ensures forall k: nat :: first <= k <= last ==> all[k] == Block(disk, n, k)
    {
      if first == last {
        if last < 12 {
          all[last] := n.sectors[last];
        } else {
          LoadTable(all, n.sectors[12]);
        }
      } else if last < 12 {
        CopyDirect(n, all, first, last + 1);
      } else if first < 12 {
        CopyDirect(n, all, first, 12);
        assert n.sectors[12] != 0;
        LoadTable(all, n.sectors[12]);
      } else {
        assert n.sectors[12] != 0;
        LoadTable(all, n.sectors[12]);
      }
    }

    method CopyDirect(n: Inode, all: array<nat>, from: nat, to: nat)
      requires all.Length == 140 && from <= to <= 12
      modifies all
      ensures forall k: nat :: from <= k < to ==> all[k] == n.sectors[k]
    {
      var k := from;
      while k < to
        invariant from <= k <= to
        invariant forall j: nat :: from <= j < k ==> all[j] == n.sectors[j]
      {
        all[k] := n.sectors[k];
        k := k + 1;
      }
    }

    /** One trip of the read loop: the part of one sector that is still wanted. */
    method ReadSector(f: OpenFile, all: array<nat>, left: nat, ghost first: nat, ghost last: nat)
      returns (piece: seq<Byte>)
      requires f.ino in inodes && FileOk(disk, inodes[f.ino]) && f.pos + left <= inodes[f.ino].size
      requires all.Length == 140 && left > 0
      requires first <= f.pos / 512 && (f.pos + left) / 512 <= last < 140
      requires forall k: nat :: first <= k <= last ==> all[k] == Block(disk, inodes[f.ino], k)
      modifies f`pos
      ensures 0 < |piece| <= left && f.pos == old(f.pos) + |piece|
      ensures piece == Contents(disk, inodes[f.ino])[old(f.pos)..f.pos]
    {
      hide FileOk, Contents, Block, Sec, Off;
      var pos := f.pos;
      var k, off := Sec(pos), Off(pos);
      var room := 512 - off;
      var count := if left < room then left else room;
      ReadRange(pos, left, count);
      ReadChunk(disk, inodes[f.ino], k, off, count);
      var io := Read(disk, all[k]);
      piece := io[off..off + count];
      f.pos := pos + count;
    }

    /** The read loop. */
    method ReadLoop(f: OpenFile, all: array<nat>, size: nat, ghost first: nat, ghost last: nat)
      returns (data: seq<Byte>)
      requires f.ino in inodes && FileOk(disk, inodes[f.ino]) && f.pos + size <= inodes[f.ino].size && all.Length == 140
      requires first == f.pos / 512 && last == (f.pos + size) / 512 < 140
      requires forall k: nat :: first <= k <= last ==> all[k] == Block(disk, inodes[f.ino], k)
      modifies f`pos
      ensures f.pos == old(f.pos) + size
      ensures data == Contents(disk, inodes[f.ino])[old(f.pos)..old(f.pos) + size]
    {
      hide FileOk, Contents, Block;
      FileSmall(disk, inodes[f.ino]);
      var pos := f.pos;
      ghost var bytes := Contents(disk, inodes[f.ino]);
      data := [];
      while |data| < size
        invariant |data| <= size && f.pos == pos + |data|
        invariant data == bytes[pos..f.pos]
        decreases size - |data|
      {
        ghost var before := f.pos;
        var piece := ReadSector(f, all, size - |data|, first, last);
        JoinSlices(bytes, pos, before, f.pos);
        data := data + piece;
      }
    }

    /** The end of file_read: the addresses of the blocks first..last, and the loop. */
    method ReadBlocks(f: OpenFile, size: nat, first: nat, last: nat) returns (data: seq<Byte>)
      requires f.ino in inodes && FileOk(disk, inodes[f.ino]) && f.pos + size <= inodes[f.ino].size
      requires first == f.pos / 512 && last == (f.pos + size) / 512 < 139
      modifies f`pos
      ensures f.pos == old(f.pos) + size
      ensures data == Contents(disk, inodes[f.ino])[old(f.pos)..old(f.pos) + size]
    {
      hide FileOk, Contents, Block;
      var n := inodes[f.ino];
      var all := new nat[140](_ => 0);
      TableThere(disk, n, last);
      CollectRead(n, all, first, last);
      data := ReadLoop(f, all, size, first, last);
    }

    /** file_read */
    method FileRead(f: OpenFile, count: nat) returns (r: ReadResult)
      requires f.ino in inodes && FileOk(disk, inodes[f.ino])
      requires (f.pos <= inodes[f.ino].size && count <= 0xc000_0000) || (f.pos == 0xffff_ffff && count < 0x1_0000_0000)
      modifies f`pos
      ensures r.EndOfFile? <==> f.pos == old(f.pos) == inodes[f.ino].size && count > 0
      ensures r.ReadHalted? <==> ReadHalts(inodes[f.ino].size, old(f.pos), count)
      ensures r.Bytes? ==>
                r.data == Contents(disk, inodes[f.ino])
                          [old(f.pos)..old(f.pos) + Available(inodes[f.ino].size, old(f.pos), count)]
      ensures r.Bytes? ==> f.pos == old(f.pos) + |r.data|
      ensures r.Bytes? ==> |r.data| <= count && (|r.data| == count || f.pos == inodes[f.ino].size)
    {
      hide FileOk, Contents, Block, Wrap, ReadHalts, Available;
      FileSmall(disk, inodes[f.ino]);
      var n, size, pos := inodes[f.ino], count, f.pos;
      ReadPlan(n.size, f.pos, count);
      if Wrap(f.pos + count) > n.size {
        size := Wrap(n.size - f.pos);
        if size == 0 {
          return EndOfFile;
        }
      }
      var first, last := f.pos / 512, Wrap(f.pos + size) / 512;
      if !(first < 139 && last < 139) {
        return ReadHalted;
      }
      var data := ReadBlocks(f, size, first, last);
      AvailableMeans(n.size, pos, count);
      return Bytes(data);
    }
  }

  /** `got` written over the entries from `from` on. */
  function Patch(s: seq<nat>, from: nat, got: seq<nat>): (r: seq<nat>)
    requires from + |got| <= |s|
    ensures |r| == |s|
  {
    s[..from] + got + s[from + |got|..]
  }

  /** The same on i_sectors, of which only the twelve direct entries take part. */
  function PatchDirect(sectors: seq<nat>, from: nat, got: seq<nat>): (r: seq<nat>)
    requires |sectors| == 13
    ensures |r| == 13
  {
    seq(13, k requires 0 <= k < 13 => if from <= k < from + |got| && k < 12 then got[k - from] else sectors[k])
  }

  lemma DirectFacts(d: seq<Sector>, n: Inode, has: nat)
    requires HoldsBlocks(d, n, has) && 1 <= has <= 12
    ensures forall k: nat :: k < 12 ==> (n.sectors[k] == 0 <==> k >= has)
    ensures n.sectors[12] == 0 && TableOf(d, n) == seq(128, _ => 0) && Block(d, n, has - 1) == n.sectors[has - 1]
  {
    forall k: nat | k < 12 ensures n.sectors[k] == 0 <==> k >= has {
      assert Block(d, n, k) == n.sectors[k];
    }
  }

  lemma TableFacts(fs: Fs, ino: nat, has: nat)
    requires OwnInv(fs) && ino in fs.inodes && HoldsBlocks(fs.disk, fs.inodes[ino], has) && has > 12
    ensures var n := fs.inodes[ino];
            && 0 < n.sectors[12] < |fs.disk| && TableOf(fs.disk, n) == Words(Read(fs.disk, n.sectors[12]))
            && Block(fs.disk, n, has - 1) == Words(Read(fs.disk, n.sectors[12]))[has - 13]
  {
    var n := fs.inodes[ino];
    assert Placed(fs, n) && Owns(fs.disk, n, n.sectors[12]);
  }

  lemma TableOnDisk(fs: Fs, after: seq<bool>, table: nat, got: seq<nat>)
    requires OwnInv(fs) && Granted(fs.dataStart, fs.bits, after, got) && table in got
    ensures table < |fs.disk| && table != 0
  {
    GotPlaced(fs, after, got, table);
  }

  /** No bit was cleared. */
  ghost predicate BitsGrew(before: seq<bool>, after: seq<bool>) {
    |after| == |before| && forall k: nat :: k < |before| && before[k] ==> after[k]
  }

  /** What growing a file from has to will blocks does to the partition. */
  ghost predicate GrownTo(fs: Fs, gs: Fs, ino: nat, has: nat, will: nat, taken: nat, all: seq<nat>) {
    && ino in fs.inodes && ino in gs.inodes && gs.inodes.Keys == fs.inodes.Keys
    && OwnInv(gs) && OthersKept(fs, gs, ino) && SameShape(fs, gs)
    && gs.inodes[ino].size == fs.inodes[ino].size && HoldsBlocks(gs.disk, gs.inodes[ino], will)
    && (forall k: nat :: k < has && k < 140 ==> Data(gs.disk, gs.inodes[ino], k) == Data(fs.disk, fs.inodes[ino], k))
    && CountClear(gs.bits) == CountClear(fs.bits) - taken && BitsGrew(fs.bits, gs.bits)
    && has <= will <= 140 == |all|
    && (forall k: nat :: has - 1 <= k < will ==> all[k] == Block(gs.disk, gs.inodes[ino], k))
  }

  ghost function AllOf(disk: seq<Sector>, n: Inode, has: nat, will: nat, got: seq<nat>): (all: seq<nat>)
    requires has <= will <= 140 && |got| == will - has
    ensures Grown(disk, n, has, will, got, all)
  {
    seq(140, k requires 0 <= k < 140 => if k < has then Block(disk, n, k) else if k < will then got[k - has] else 0)
  }

  /** The addresses the growing code leaves in i_sectors and in the table sector are those of AllOf. */
  lemma StoredGrowth(d: seq<Sector>, e: seq<Sector>, n: Inode, m: Inode, has: nat, will: nat, got: seq<nat>,
                     all0: seq<nat>, sectors0: seq<nat>)
    requires HoldsBlocks(d, n, has) && has <= will <= 140 && |got| == will - has && m.size == n.size
    requires |sectors0| == 13 && sectors0[..12] == n.sectors[..12] && m.sectors == PatchDirect(sectors0, has, got)
    requires |all0| == 140 && all0[12..140] == TableOf(d, n)
    requires if will <= 12 then sectors0[12] == 0 && e == d
             else 0 < sectors0[12] < |d| && e == d[sectors0[12] := Unwords(Patch(all0, has, got)[12..140])]
    ensures Stored(d, e, n, m, AllOf(d, n, has, will, got), m.sectors[12])
  {
    hide Patch, PatchDirect, AllOf, HoldsBlocks, Block, TableOf, Unwords;
    var all := AllOf(d, n, has, will, got);
    StoredDirect(d, n, has, will, got, sectors0);
    StoredTail(d, n, has, will, got, all0);
    NoTail(d, n, has, will, got);
    assert m.sectors[12] == sectors0[12] by {
      PatchDirectAt(sectors0, has, got, 12);
    }
  }

  lemma PatchAt(s: seq<nat>, from: nat, got: seq<nat>, k: nat)
    requires from + |got| <= |s| && k < |s|
    ensures Patch(s, from, got)[k] == if from <= k < from + |got| then got[k - from] else s[k]
  {
  }

  lemma PatchDirectAt(sectors: seq<nat>, from: nat, got: seq<nat>, k: nat)
    requires |sectors| == 13 && k < 13
    ensures PatchDirect(sectors, from, got)[k] ==
            if from <= k < from + |got| && k < 12 then got[k - from] else sectors[k]
  {
  }

  lemma AllOfAt(d: seq<Sector>, n: Inode, has: nat, will: nat, got: seq<nat>, k: nat)
    requires has <= will <= 140 && |got| == will - has && k < 140
    ensures AllOf(d, n, has, will, got)[k] == if k < has then Block(d, n, k) else if k < will then got[k - has] else 0
  {
    hide Block;
  }

  lemma HeldBlock(d: seq<Sector>, n: Inode, has: nat, k: nat)
    requires HoldsBlocks(d, n, has) && has <= k < 140
    ensures Block(d, n, k) == 0
  {
  }

  /** The direct addresses. */
  lemma StoredDirect(d: seq<Sector>, n: Inode, has: nat, will: nat, got: seq<nat>, sectors0: seq<nat>)
    requires HoldsBlocks(d, n, has) && has <= will <= 140 && |got| == will - has
    requires |sectors0| == 13 && sectors0[..12] == n.sectors[..12]
    ensures PatchDirect(sectors0, has, got)[..12] == AllOf(d, n, has, will, got)[..12]
  {
    hide HoldsBlocks, Patch, PatchDirect, AllOf;
    var a, b := PatchDirect(sectors0, has, got), AllOf(d, n, has, will, got);
    forall k: nat | k < 12 ensures a[k] == b[k] {
      PatchDirectAt(sectors0, has, got, k);
      AllOfAt(d, n, has, will, got, k);
      if k >= has {
        HeldBlock(d, n, has, k);
      }
      assert Block(d, n, k) == n.sectors[k] == n.sectors[..12][k] == sectors0[..12][k];
    }
  }

  /** The table sector. */
  lemma StoredTail(d: seq<Sector>, n: Inode, has: nat, will: nat, got: seq<nat>, all0: seq<nat>)
    requires HoldsBlocks(d, n, has) && has <= will <= 140 && |got| == will - has
    requires |all0| == 140 && all0[12..140] == TableOf(d, n)
    ensures Patch(all0, has, got)[12..140] == AllOf(d, n, has, will, got)[12..]
  {
    hide HoldsBlocks, Patch, AllOf, Block;
    var a, b := Patch(all0, has, got), AllOf(d, n, has, will, got);
    forall k: nat | 12 <= k < 140 ensures a[k] == b[k] {
      PatchAt(all0, has, got, k);
      AllOfAt(d, n, has, will, got, k);
      if k >= has {
        HeldBlock(d, n, has, k);
      }
      assert all0[k] == all0[12..140][k - 12] == TableOf(d, n)[k - 12];
    }
  }

  lemma NoTail(d: seq<Sector>, n: Inode, has: nat, will: nat, got: seq<nat>)
    requires has <= will <= 140 && |got| == will - has
    ensures will <= 12 ==> forall k: nat :: 12 <= k < 140 ==> AllOf(d, n, has, will, got)[k] == 0
  {
    hide Block;
  }

  lemma GrowDone(fs: Fs, gs: Fs, ino: nat, has: nat, will: nat, got: seq<nat>, newTable: bool)
    requires OwnInv(fs) && ino in fs.inodes && ino in gs.inodes && has <= will <= 140 && |got| == will - has
    requires HoldsBlocks(fs.disk, fs.inodes[ino], has) && (newTable <==> has <= 12 < will)
    requires gs == fs.(disk := gs.disk, bits := gs.bits, inodes := fs.inodes[ino := gs.inodes[ino]])
    requires var table := gs.inodes[ino].sectors[12];
             && (!newTable ==> table == fs.inodes[ino].sectors[12])
             && Granted(fs.dataStart, fs.bits, gs.bits, (if newTable then [table] else []) + got)
             && CountClear(gs.bits) == CountClear(fs.bits) - |(if newTable then [table] else []) + got|
             && Stored(fs.disk, gs.disk, fs.inodes[ino], gs.inodes[ino],
                       AllOf(fs.disk, fs.inodes[ino], has, will, got), table)
    ensures GrownTo(fs, gs, ino, has, will, will - has + (if newTable then 1 else 0),
                    AllOf(fs.disk, fs.inodes[ino], has, will, got))
  {
    var all := AllOf(fs.disk, fs.inodes[ino], has, will, got);
    var table := gs.inodes[ino].sectors[12];
    var taken := (if newTable then [table] else []) + got;
    hide OwnInv, HoldsBlocks, Granted, Stored, CountClear, Block, Data, Extends, Distinct, AllOf, BitsGrew, SameInode,
         Grown, Owns, Words;
    GrowFile(fs, gs, ino, has, will, all, newTable, got);
    ExtendsInv(fs, gs, ino, taken);
    GrantGrows(fs.dataStart, fs.bits, gs.bits, taken);
    StoredShape(fs.disk, gs.disk, fs.inodes[ino], gs.inodes[ino], all, table);
  }

  lemma GrantGrows(start: nat, before: seq<bool>, after: seq<bool>, got: seq<nat>)
    requires Granted(start, before, after, got)
    ensures BitsGrew(before, after)
  {
  }

  lemma StoredShape(d: seq<Sector>, e: seq<Sector>, n: Inode, m: Inode, all: seq<nat>, table: nat)
    requires Stored(d, e, n, m, all, table)
    ensures |e| == |d| && m.size == n.size
  {
  }

  /** The growing code is done: `all0` and `sectors0` are what the allocation loop started from. */
  lemma Grew(fs: Fs, gs: Fs, ino: nat, has: nat, will: nat, got: seq<nat>, newTable: bool, all0: seq<nat>,
             sectors0: seq<nat>)
    requires OwnInv(fs) && ino in fs.inodes && HoldsBlocks(fs.disk, fs.inodes[ino], has) && 1 <= has <= will <= 140
    requires ino in gs.inodes && gs == fs.(disk := gs.disk, bits := gs.bits, inodes := fs.inodes[ino := gs.inodes[ino]])
    requires |got| == will - has && (newTable <==> has <= 12 < will)
    requires |sectors0| == 13 && sectors0[..12] == fs.inodes[ino].sectors[..12]
    requires !newTable ==> sectors0[12] == fs.inodes[ino].sectors[12]
    requires gs.inodes[ino] == Inode(fs.inodes[ino].size, PatchDirect(sectors0, has, got))
    requires |all0| == 140 && all0[12..140] == TableOf(fs.disk, fs.inodes[ino])
    requires all0[has - 1] == Block(fs.disk, fs.inodes[ino], has - 1)
    requires if will <= 12 then sectors0[12] == 0 else 0 < sectors0[12] < |fs.disk|
    requires gs.disk ==
             if will <= 12 then fs.disk else fs.disk[sectors0[12] := Unwords(Patch(all0, has, got)[12..140])]
    requires var taken := (if newTable then [sectors0[12]] else []) + got;
             Granted(fs.dataStart, fs.bits, gs.bits, taken) && CountClear(gs.bits) == CountClear(fs.bits) - |taken|
    ensures GrownTo(fs, gs, ino, has, will, will - has + (if newTable then 1 else 0), Patch(all0, has, got))
  {
    var n, m := fs.inodes[ino], gs.inodes[ino];
    assert m.sectors[12] == sectors0[12];
    hide OwnInv, HoldsBlocks, GrownTo, Granted, Stored, CountClear, Block, TableOf, Patch, PatchDirect;
    StoredGrowth(fs.disk, gs.disk, n, m, has, will, got, all0, sectors0);
    GrowDone(fs, gs, ino, has, will, got, newTable);
    SameEntries(fs, gs, ino, has, will, will - has + (if newTable then 1 else 0), got, all0);
  }

  /** The end of situation 1. */
  lemma GrewDirect(fs: Fs, gs: Fs, ino: nat, has: nat, will: nat, got: seq<nat>, all0: seq<nat>)
    requires OwnInv(fs) && ino in fs.inodes && HoldsBlocks(fs.disk, fs.inodes[ino], has) && 1 <= has <= will <= 12
    requires |all0| == 140 && all0[12..140] == seq(128, _ => 0) && all0[has - 1] == fs.inodes[ino].sectors[has - 1]
    requires |got| == will - has && ino in gs.inodes && gs.disk == fs.disk
    requires Granted(fs.dataStart, fs.bits, gs.bits, got) && CountClear(gs.bits) == CountClear(fs.bits) - |got|
    requires gs.inodes[ino] == Inode(fs.inodes[ino].size, PatchDirect(fs.inodes[ino].sectors, has, got))
    requires gs == fs.(bits := gs.bits, inodes := fs.inodes[ino := gs.inodes[ino]])
    ensures GrownTo(fs, gs, ino, has, will, will - has, Patch(all0, has, got))
  {
    hide OwnInv, HoldsBlocks, GrownTo, Granted, CountClear, Block, Words, Unwords, Patch, PatchDirect, TableOf;
    DirectFacts(fs.disk, fs.inodes[ino], has);
    assert [] + got == got;
    Grew(fs, gs, ino, has, will, got, false, all0, fs.inodes[ino].sectors);
  }

  /** The end of situation 2. */
  lemma GrewAcross(fs: Fs, gs: Fs, ino: nat, has: nat, will: nat, table: nat, got: seq<nat>, all0: seq<nat>)
    requires OwnInv(fs) && ino in fs.inodes && HoldsBlocks(fs.disk, fs.inodes[ino], has) && 1 <= has <= 12 < will <= 140
    requires |all0| == 140 && all0[12..140] == seq(128, _ => 0) && all0[has - 1] == fs.inodes[ino].sectors[has - 1]
    requires |got| == will - has && 0 < table < |fs.disk| && ino in gs.inodes
    requires Granted(fs.dataStart, fs.bits, gs.bits, [table] + got)
    requires CountClear(gs.bits) == CountClear(fs.bits) - |[table] + got|
    requires gs.inodes[ino] == Inode(fs.inodes[ino].size, PatchDirect(fs.inodes[ino].sectors[12 := table], has, got))
    requires gs.disk == fs.disk[table := Unwords(Patch(all0, has, got)[12..140])]
    requires gs == fs.(disk := gs.disk, bits := gs.bits, inodes := fs.inodes[ino := gs.inodes[ino]])
    ensures GrownTo(fs, gs, ino, has, will, will - has + 1, Patch(all0, has, got))
  {
    hide OwnInv, HoldsBlocks, GrownTo, Granted, CountClear, Block, Words, Unwords, Patch, PatchDirect, TableOf;
    DirectFacts(fs.disk, fs.inodes[ino], has);
    Grew(fs, gs, ino, has, will, got, true, all0, fs.inodes[ino].sectors[12 := table]);
  }

  lemma SameEntries(fs: Fs, gs: Fs, ino: nat, has: nat, will: nat, taken: nat, got: seq<nat>, all0: seq<nat>)
    requires 1 <= has <= will <= 140 == |all0| && |got| == will - has && ino in fs.inodes
    requires all0[has - 1] == Block(fs.disk, fs.inodes[ino], has - 1)
    requires GrownTo(fs, gs, ino, has, will, taken, AllOf(fs.disk, fs.inodes[ino], has, will, got))
    ensures GrownTo(fs, gs, ino, has, will, taken, Patch(all0, has, got))
  {
    hide OwnInv, HoldsBlocks, CountClear, Block, OthersKept, Data;
    forall k: nat | has - 1 <= k < will ensures Patch(all0, has, got)[k] == Block(gs.disk, gs.inodes[ino], k) {
      assert AllOf(fs.disk, fs.inodes[ino], has, will, got)[k] == Block(gs.disk, gs.inodes[ino], k);
    }
  }

  /** The indirect addresses as file_write holds them after reading the table, or before there is one. */
  function TableOf(disk: seq<Sector>, n: Inode): (t: seq<nat>)
    ensures |t| == 128
  {
    seq(128, i requires 0 <= i < 128 => Block(disk, n, 12 + i))
  }

  // ---------------------------------------------------------------- file_write

  function Growth(has: nat, will: nat): int {
    will - has + if has <= 12 < will then 1 else 0
  }

  /** Bit 0 of the block bitmap, the root directory's block, is never given out. */
  predicate RootBit(bits: seq<bool>) {
    |bits| > 0 && bits[0]
  }

  /** After the first-block step: the file has its blocks, and its bytes and every other file are as before. */
  ghost predicate Prepared(fs: Fs, gs: Fs, ino: nat) {
    && ino in fs.inodes && ino in gs.inodes && gs.inodes.Keys == fs.inodes.Keys
    && OwnInv(gs) && OthersKept(fs, gs, ino) && SameShape(fs, gs)
    && gs.inodes[ino].size == fs.inodes[ino].size <= MAX_SIZE
    && HoldsBlocks(gs.disk, gs.inodes[ino], gs.inodes[ino].size / 512 + 1)
    && Contents(gs.disk, gs.inodes[ino]) == Contents(fs.disk, fs.inodes[ino])
    && CountClear(gs.bits) == CountClear(fs.bits) - (if fs.inodes[ino].sectors[0] == 0 then 1 else 0)
    && BitsGrew(fs.bits, gs.bits)
  }

  lemma KeptSelf(fs: Fs, ino: nat)
    ensures OthersKept(fs, fs, ino)
  {
  }

  lemma FirstGrant(fs: Fs, gs: Fs, ino: nat, lba: nat)
    requires OwnInv(fs) && ino in fs.inodes && FileOk(fs.disk, fs.inodes[ino]) && fs.inodes[ino].sectors[0] == 0
    requires FirstClear(fs.bits) < |fs.bits| && lba == fs.dataStart + FirstClear(fs.bits)
    requires gs == fs.(bits := fs.bits[FirstClear(fs.bits) := true],
                       inodes := fs.inodes[ino := Inode(0, fs.inodes[ino].sectors[0 := lba])])
    ensures Prepared(fs, gs, ino)
  {
    hide OwnInv, Granted, CountClear, Stored, OthersKept, Block, AllOf, HoldsBlocks, FirstClear, GrownTo, Prepared;
    GrantNone(fs.dataStart, fs.bits);
    GrantMore(fs.dataStart, fs.bits, fs.bits, [], FirstClear(fs.bits));
    assert [] + [lba] == [lba];
    FirstStored(fs.disk, fs.inodes[ino], lba);
    GrowDone(fs, gs, ino, 0, 1, [lba], false);
    FirstPrepared(fs, gs, ino, AllOf(fs.disk, fs.inodes[ino], 0, 1, [lba]));
  }

  lemma FirstPrepared(fs: Fs, gs: Fs, ino: nat, all: seq<nat>)
    requires ino in fs.inodes && fs.inodes[ino].size == 0 && fs.inodes[ino].sectors[0] == 0
    requires GrownTo(fs, gs, ino, 0, 1, 1, all)
    ensures Prepared(fs, gs, ino)
  {
    hide OwnInv, CountClear, OthersKept, Block, HoldsBlocks;
  }

  lemma FirstStored(d: seq<Sector>, n: Inode, lba: nat)
    requires HoldsBlocks(d, n, 0)
    ensures n.sectors[12] == 0 && Stored(d, d, n, n.(sectors := n.sectors[0 := lba]), AllOf(d, n, 0, 1, [lba]), 0)
  {
    var m := n.(sectors := n.sectors[0 := lba]);
    forall k: nat | k < 12 ensures m.sectors[k] == AllOf(d, n, 0, 1, [lba])[k] {
      assert Block(d, n, k) == n.sectors[k] == 0;
    }
  }

  /** Part of the payload is on the disk: the file reads as before with `done` appended. */
  ghost predicate Midway(fs: Fs, gs: Fs, ino: nat, all: seq<nat>, start: nat, will: nat, done: seq<Byte>) {
    && ino in fs.inodes && ino in gs.inodes && gs.inodes.Keys == fs.inodes.Keys
    && gs.inodes[ino].size == fs.inodes[ino].size + |done| <= MAX_SIZE
    && OwnInv(gs) && OthersKept(fs, gs, ino) && gs.bits == fs.bits && SameShape(fs, gs)
    && HoldsBlocks(gs.disk, gs.inodes[ino], will) && will <= |all| == 140
    && (forall k: nat :: start <= k < will ==> all[k] == Block(gs.disk, gs.inodes[ino], k))
    && Contents(gs.disk, gs.inodes[ino]) == Contents(fs.disk, fs.inodes[ino]) + done
  }

  /** uint32_t arithmetic */
  function Wrap(x: int): nat {
    x % 0x1_0000_0000
  }

  function Sec(size: nat): nat {
    size / 512
  }

  function Off(size: nat): (off: nat)
    ensures off < 512
  {
    size % 512
  }

  predicate Aligned(size: nat) {
    size % 512 == 0
  }

  /** Where one trip of the write loop lands, and that it ends at a sector boundary or at the end of the payload. */
  lemma WriteRange(size0: nat, size: nat, count: nat, will: nat, chunk: nat)
    requires size0 <= size < size0 + count && will == (size0 + count) / 512 + 1
    requires var left, room := size0 + count - size, 512 - Off(size); chunk == if left < room then left else room
    ensures size == 512 * Sec(size) + Off(size) && Off(size) < 512 && (Aligned(size) ==> Off(size) == 0)
    ensures size0 / 512 <= Sec(size) < will
    ensures Aligned(size + chunk) || size + chunk == size0 + count
  {
    if chunk == 512 - Off(size) {
      assert size + chunk == 512 * (Sec(size) + 1);
    }
  }

  lemma PosStep(pos: nat, written: nat, count: nat)
    ensures Wrap(Wrap(pos + written) + count) == Wrap(pos + (written + count))
  {
    assert (pos + written + count) % 0x1_0000_0000 == ((pos + written) % 0x1_0000_0000 + count) % 0x1_0000_0000;
  }

  lemma MidwaySize(fs: Fs, gs: Fs, ino: nat, all: seq<nat>, start: nat, will: nat, done: seq<Byte>)
    requires Midway(fs, gs, ino, all, start, will, done)
    ensures ino in fs.inodes && ino in gs.inodes && gs.inodes[ino].size == fs.inodes[ino].size + |done|
  {
  }

  lemma MidwayLba(fs: Fs, gs: Fs, ino: nat, all: seq<nat>, start: nat, will: nat, done: seq<Byte>, k: nat)
    requires Midway(fs, gs, ino, all, start, will, done) && start <= k < will
    ensures OwnInv(gs) && ino in gs.inodes
    ensures var n := gs.inodes[ino];
            && k < 140 && |all| == 140 && all[k] == Block(gs.disk, n, k) != 0 && all[k] < |gs.disk|
            && Read(gs.disk, all[k]) == Data(gs.disk, n, k)
  {
    var n := gs.inodes[ino];
    assert Block(gs.disk, n, k) != 0;
    assert Owns(gs.disk, n, Block(gs.disk, n, k)) && Placed(gs, n);
  }

  lemma MidwayStep(fs: Fs, gs: Fs, hs: Fs, ino: nat, all: seq<nat>, start: nat, will: nat, done: seq<Byte>,
                   k: nat, off: nat, chunk: seq<Byte>, io: Sector)
    requires Midway(fs, gs, ino, all, start, will, done) && start <= k < will
    requires var n := gs.inodes[ino];
             && n.size == 512 * k + off && off < 512 && off + |chunk| <= 512 && n.size + |chunk| <= MAX_SIZE
             && (off != 0 ==> io == Read(gs.disk, all[k])) && all[k] < |gs.disk|
             && hs == gs.(disk := gs.disk[all[k] := Splice(io, off, chunk)],
                          inodes := gs.inodes[ino := n.(size := n.size + |chunk|)])
    ensures Midway(fs, hs, ino, all, start, will, done + chunk)
  {
    hide Midway, OwnInv, Contents, Splice, SameInode, HoldsBlocks, Block, Data;
    MidwayLba(fs, gs, ino, all, start, will, done, k);
    AppendChunk(gs, hs, ino, k, off, chunk, io);
    MidwayNext(fs, gs, hs, ino, all, start, will, done, chunk);
  }

  lemma MidwayNext(fs: Fs, gs: Fs, hs: Fs, ino: nat, all: seq<nat>, start: nat, will: nat, done: seq<Byte>,
                   chunk: seq<Byte>)
    requires Midway(fs, gs, ino, all, start, will, done) && OwnInv(hs) && hs.bits == gs.bits && SameShape(gs, hs)
    requires hs.inodes == gs.inodes[ino := gs.inodes[ino].(size := gs.inodes[ino].size + |chunk|)]
    requires gs.inodes[ino].size + |chunk| <= MAX_SIZE
    requires forall j: nat :: j < 140 ==> Block(hs.disk, hs.inodes[ino], j) == Block(gs.disk, gs.inodes[ino], j)
    requires Contents(hs.disk, hs.inodes[ino]) == Contents(gs.disk, gs.inodes[ino]) + chunk
    requires forall j :: j in gs.inodes && j != ino ==>
             SameInode(gs.disk, hs.disk, gs.inodes[j]) && hs.inodes[j] == gs.inodes[j]
    ensures Midway(fs, hs, ino, all, start, will, done + chunk)
  {
    hide OwnInv, Contents, SameInode, HoldsBlocks, Block, OthersKept;
    KeptStep(fs, gs, hs, ino);
    var before := Contents(fs.disk, fs.inodes[ino]);
    assert (before + done) + chunk == before + (done + chunk);
    SameHolds(gs.disk, hs.disk, gs.inodes[ino], hs.inodes[ino], will);
  }

  lemma KeptStep(fs: Fs, gs: Fs, hs: Fs, ino: nat)
    requires OthersKept(fs, gs, ino) && hs.inodes.Keys == gs.inodes.Keys
    requires forall j :: j in gs.inodes && j != ino ==>
             SameInode(gs.disk, hs.disk, gs.inodes[j]) && hs.inodes[j] == gs.inodes[j]
    ensures OthersKept(fs, hs, ino)
  {
    hide SameInode;
    forall j | j in gs.inodes && j != ino ensures KeptFile(gs, hs, j) {
      assert hs.inodes[j] == gs.inodes[j];
    }
    KeptTrans(fs, gs, hs, ino);
  }

  lemma SameHolds(d: seq<Sector>, e: seq<Sector>, n: Inode, m: Inode, c: nat)
    requires HoldsBlocks(d, n, c) && m.sectors == n.sectors
    requires forall k: nat :: k < 140 ==> Block(e, m, k) == Block(d, n, k)
    ensures HoldsBlocks(e, m, c)
  {
  }

  /** What stops the kernel inside file_write: a size of exactly 140 full blocks, or too few free blocks. */
  ghost predicate WriteHalts(fs: Fs, ino: nat, count: nat)
    requires ino in fs.inodes
  {
    fs.inodes[ino].size + count == 71680 || CountClear(fs.bits) < Needed(fs.inodes[ino], count)
  }

  /** What a successful write does: the payload is appended, the file stays well formed, nobody else changes. */
  ghost predicate Wrote(fs: Fs, gs: Fs, ino: nat, buf: seq<Byte>) {
    && ino in fs.inodes && ino in gs.inodes && gs.inodes.Keys == fs.inodes.Keys
    && fs.inodes[ino].size <= MAX_SIZE
    && OwnInv(gs) && RootBit(gs.bits) && BitsGrew(fs.bits, gs.bits) && OthersKept(fs, gs, ino) && SameShape(fs, gs)
    && FileOk(gs.disk, gs.inodes[ino])
    && Contents(gs.disk, gs.inodes[ino]) == Contents(fs.disk, fs.inodes[ino]) + buf
    && CountClear(gs.bits) == CountClear(fs.bits) - Needed(fs.inodes[ino], |buf|)
  }

  lemma FileSmall(d: seq<Sector>, n: Inode)
    requires FileOk(d, n)
    ensures n.size <= MAX_SIZE
  {
  }

  lemma PreparedFacts(fs: Fs, ps: Fs, ino: nat)
    requires Prepared(fs, ps, ino)
    ensures ino in fs.inodes && ino in ps.inodes && OwnInv(ps) && ps.inodes[ino].size == fs.inodes[ino].size
    ensures HoldsBlocks(ps.disk, ps.inodes[ino], ps.inodes[ino].size / 512 + 1)
    ensures CountClear(ps.bits) == CountClear(fs.bits) - (if fs.inodes[ino].sectors[0] == 0 then 1 else 0)
  {
    hide OwnInv, CountClear;
  }

  lemma GrownSize(fs: Fs, gs: Fs, ino: nat, has: nat, will: nat, taken: nat, all: seq<nat>)
    requires GrownTo(fs, gs, ino, has, will, taken, all)
    ensures ino in fs.inodes && ino in gs.inodes && gs.inodes[ino].size == fs.inodes[ino].size
  {
    hide OwnInv, CountClear, HoldsBlocks, OthersKept, Block, Data;
  }

  /** Blocks 0 to size / 512 carry the bytes. */
  lemma SameData(d: seq<Sector>, e: seq<Sector>, n: Inode, m: Inode, has: nat)
    requires n.size == m.size <= MAX_SIZE && has == n.size / 512 + 1
    requires forall k: nat :: k < has && k < 140 ==> Data(e, m, k) == Data(d, n, k)
    ensures Contents(e, m) == Contents(d, n)
  {
    forall i: nat | i < n.size ensures Contents(e, m)[i] == Contents(d, n)[i] {
      assert Data(e, m, i / 512) == Data(d, n, i / 512);
    }
  }

  lemma GrownMidway(ps: Fs, gs: Fs, ino: nat, has: nat, will: nat, all: seq<nat>)
    requires 1 <= has <= will && GrownTo(ps, gs, ino, has, will, Growth(has, will), all)
    requires ps.inodes[ino].size <= MAX_SIZE && has == ps.inodes[ino].size / 512 + 1
    ensures ino in gs.inodes && gs.inodes[ino].size == ps.inodes[ino].size
    ensures Midway(gs, gs, ino, all, has - 1, will, [])
    ensures Contents(gs.disk, gs.inodes[ino]) == Contents(ps.disk, ps.inodes[ino])
  {
    hide OwnInv, CountClear, HoldsBlocks, Data, Block;
    SameData(ps.disk, gs.disk, ps.inodes[ino], gs.inodes[ino], has);
    KeptSelf(gs, ino);
    assert Contents(gs.disk, gs.inodes[ino]) + [] == Contents(gs.disk, gs.inodes[ino]);
  }

  lemma WriteDone(fs: Fs, ps: Fs, gs: Fs, hs: Fs, ino: nat, has: nat, will: nat, all: seq<nat>, buf: seq<Byte>)
    requires ino in fs.inodes && RootBit(fs.bits) && Prepared(fs, ps, ino)
    requires has == fs.inodes[ino].size / 512 + 1 && will == (fs.inodes[ino].size + |buf|) / 512 + 1
    requires GrownTo(ps, gs, ino, has, will, Growth(has, will), all) && Midway(gs, hs, ino, all, has - 1, will, buf)
    ensures Wrote(fs, hs, ino, buf)
  {
    hide OwnInv, CountClear, HoldsBlocks, Data, Block, OthersKept;
    GrownMidway(ps, gs, ino, has, will, all);
    KeptTrans(fs, ps, gs, ino);
    KeptTrans(fs, gs, hs, ino);
    NowOk(hs.disk, hs.inodes[ino], will);
  }

  lemma NowOk(d: seq<Sector>, n: Inode, will: nat)
    requires n.size <= MAX_SIZE && will == n.size / 512 + 1 && HoldsBlocks(d, n, will)
    ensures FileOk(d, n)
  {
    assert Block(d, n, 0) == n.sectors[0];
  }

  lemma SizeFits(size: nat, count: nat)
    requires size <= MAX_SIZE && count <= 0xc000_0000
    ensures Wrap(size + count) == size + count
  {
  }

  lemma PosEnd(size: nat, count: nat)
    ensures Wrap(Wrap(size - 1) + count) == Wrap(size + count - 1) && Wrap(Wrap(size - 1)) == Wrap(size - 1)
  {
  }

  // ---------------------------------------------------------------- file_read

  /** How many bytes a read of `count` at `pos` can return. */
  function Available(size: nat, pos: nat, count: nat): nat {
    if pos <= size then if pos + count > size then size - pos else count else 0
  }

  /**
   * What stops the kernel inside file_read: the last block index the code computes is 139 or more, or the position
   * is the one a zero-length write leaves on an empty file.
   */
  predicate ReadHalts(size: nat, pos: nat, count: nat) {
    if pos > size then true
    else if pos == size && count > 0 then false
    else (pos + Available(size, pos, count)) / 512 >= 139
  }

  /** All that was asked for, or all that is left. */
  lemma AvailableMeans(size: nat, pos: nat, count: nat)
    requires pos <= size
    ensures var n := Available(size, pos, count); n <= count && (n == count || pos + n == size)
  {
  }

  /** The unsigned arithmetic of file_read, and what it decides. */
  lemma ReadPlan(size: nat, pos: nat, count: nat)
    requires size <= MAX_SIZE
    requires (pos <= size && count <= 0xc000_0000) || (pos == 0xffff_ffff && count < 0x1_0000_0000)
    ensures var cut := if Wrap(pos + count) > size then Wrap(size - pos) else count;
            var last := Wrap(pos + cut) / 512;
            && (Wrap(pos + count) > size && cut == 0 <==> pos == size && count > 0)
            && (!(pos == size && count > 0) ==> (ReadHalts(size, pos, count) <==> pos / 512 >= 139 || last >= 139))
            && (pos == size && count > 0 ==> !ReadHalts(size, pos, count))
            && (pos <= size ==> cut == Available(size, pos, count) && pos + cut <= size)
            && (pos <= size ==> Wrap(pos + cut) == pos + cut && pos / 512 <= last)
            && (pos > size ==> pos / 512 >= 139)
  {
    if pos > size {
      assert Wrap(pos + count) == if count == 0 then pos else count - 1;
    } else {
      assert Wrap(pos + count) == pos + count && Wrap(size - pos) == size - pos;
    }
  }

  lemma TableThere(d: seq<Sector>, n: Inode, last: nat)
    requires FileOk(d, n) && 512 * last <= n.size
    ensures last >= 12 ==> n.sectors[12] != 0
  {
  }

  lemma JoinSlices(bytes: seq<Byte>, i: nat, j: nat, k: nat)
    requires i <= j <= k <= |bytes|
    ensures bytes[i..j] + bytes[j..k] == bytes[i..k]
  {
  }

  lemma ReadRange(pos: nat, left: nat, chunk: nat)
    requires left > 0 && chunk == if left < 512 - Off(pos) then left else 512 - Off(pos)
    ensures pos == 512 * Sec(pos) + Off(pos) && Off(pos) < 512 && 0 < chunk && Off(pos) + chunk <= 512
    ensures Sec(pos) == pos / 512 <= (pos + left) / 512
  {
  }

  /** The bytes of one sector are the bytes of the file at that place. */
  lemma ReadChunk(d: seq<Sector>, n: Inode, k: nat, off: nat, count: nat)
    requires FileOk(d, n) && off + count <= 512 && 0 < count && 512 * k + off + count <= n.size
    ensures k < 140 && Read(d, Block(d, n, k))[off..off + count] == Contents(d, n)[512 * k + off..512 * k + off + count]
  {
    assert k < Used(n) && Block(d, n, k) != 0;
    var s, t := Read(d, Block(d, n, k))[off..off + count], Contents(d, n)[512 * k + off..512 * k + off + count];
    forall i: nat | i < count ensures s[i] == t[i] {
      Quotient(512 * k + off + i, k, off + i);
    }
  }

  // ---------------------------------------------------------------- runs of writes

  datatype Write = Write(ino: nat, data: seq<Byte>)

  /** What the writes of a run appended to one file, in order. */
  function Payload(ops: seq<Write>, ino: nat): seq<Byte> {
    if ops == [] then []
    else Payload(ops[..|ops| - 1], ino) + (if ops[|ops| - 1].ino == ino then ops[|ops| - 1].data else [])
  }

  /** A sequence of successful file_write calls. */
  ghost predicate WriteRun(states: seq<Fs>, ops: seq<Write>) {
    |states| == |ops| + 1 && forall i: nat :: i < |ops| ==> WroteAt(states, ops, i)
  }

  ghost predicate WroteAt(states: seq<Fs>, ops: seq<Write>, i: nat)
    requires |states| == |ops| + 1 && i < |ops|
  {
    Wrote(states[i], states[i + 1], ops[i].ino, ops[i].data)
  }

  lemma RunPrefix(states: seq<Fs>, ops: seq<Write>, n: nat)
    requires WriteRun(states, ops) && n < |ops|
    ensures WriteRun(states[..n + 1], ops[..n]) && Wrote(states[n], states[n + 1], ops[n].ino, ops[n].data)
  {
    hide Wrote;
    assert WroteAt(states, ops, n);
    var earlier, before := states[..n + 1], ops[..n];
    forall i: nat | i < n ensures WroteAt(earlier, before, i) {
      assert WroteAt(states, ops, i);
    }
  }

  /** In a consistent partition, inode `ino` is a well-formed file holding exactly `bytes`. */
  ghost predicate Holds(fs: Fs, ino: nat, bytes: seq<Byte>) {
    ino in fs.inodes && OwnInv(fs) && FileOk(fs.disk, fs.inodes[ino]) && Contents(fs.disk, fs.inodes[ino]) == bytes
  }

  lemma StepAppends(ms: Fs, gs: Fs, op: Write, ino: nat, bytes: seq<Byte>)
    requires Wrote(ms, gs, op.ino, op.data) && Holds(ms, ino, bytes)
    ensures Holds(gs, ino, bytes + if op.ino == ino then op.data else [])
  {
    hide OwnInv, SameInode, HoldsBlocks, Contents;
    if op.ino != ino {
      assert KeptFile(ms, gs, ino);
      SameContents(ms.disk, gs.disk, ms.inodes[ino]);
      assert bytes + [] == bytes;
    }
  }

  /**
   * For every run of writes and every file: the file's bytes at the end are its bytes at the start followed by
   * everything the run wrote to it, in order.
   */
  lemma {:induction false} RunAppends(states: seq<Fs>, ops: seq<Write>, ino: nat, bytes: seq<Byte>)
    requires WriteRun(states, ops) && Holds(states[0], ino, bytes)
    ensures Holds(states[|ops|], ino, bytes + Payload(ops, ino))
  {
    hide Holds, Wrote;
    if ops == [] {
      assert bytes + [] == bytes;
    } else {
      var n := |ops| - 1;
      RunPrefix(states, ops, n);
      RunAppends(states[..n + 1], ops[..n], ino, bytes);
      var sofar, more := Payload(ops[..n], ino), if ops[n].ino == ino then ops[n].data else [];
      StepAppends(states[n], states[n + 1], ops[n], ino, bytes + sofar);
      assert (bytes + sofar) + more == bytes + (sofar + more);
    }
  }

  /** An inode the run did not write to, file or directory, is the same block by block. */
  lemma {:induction false} RunKeeps(states: seq<Fs>, ops: seq<Write>, ino: nat)
    requires WriteRun(states, ops) && ino in states[0].inodes
    requires forall i: nat :: i < |ops| ==> ops[i].ino != ino
    ensures KeptFile(states[0], states[|ops|], ino)
  {
    if ops != [] {
      hide OwnInv, FileOk, Contents;
      var n := |ops| - 1;
      RunPrefix(states, ops, n);
      RunKeeps(states[..n + 1], ops[..n], ino);
      assert KeptFile(states[n], states[n + 1], ino);
    }
  }
}
