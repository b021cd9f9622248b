// What a regular file is: its size, the blocks it must have, and its bytes.

module Files {
  import opened Disk
  import opened Bitmaps
  import opened Ownership

  const MAX_SIZE: nat := 71679

  /** The first c entries of all_blocks are there, the others are not; the table exists when it is needed. */
  ghost predicate HoldsBlocks(disk: seq<Sector>, n: Inode, c: nat) {
    && c <= 140
    && (forall k: nat :: k < 140 ==> (Block(disk, n, k) != 0 <==> k < c))
    && (n.sectors[12] != 0 <==> c > 12)
  }

  /** Blocks in use: none before the first write, then one more than the full ones. */
  function Used(n: Inode): nat {
    if n.sectors[0] == 0 then 0 else n.size / 512 + 1
  }

  ghost predicate FileOk(disk: seq<Sector>, n: Inode) {
    n.size <= MAX_SIZE && (n.sectors[0] == 0 ==> n.size == 0) && HoldsBlocks(disk, n, Used(n))
  }

  /** The bytes of a file. */
  function Contents(disk: seq<Sector>, n: Inode): (s: seq<Byte>)
    requires n.size <= MAX_SIZE
    ensures |s| == n.size
  {
    seq(n.size, i requires 0 <= i < n.size => Data(disk, n, i / 512)[i % 512])
  }

  lemma SameContents(d: seq<Sector>, e: seq<Sector>, n: Inode)
    requires SameInode(d, e, n)
    ensures FileOk(d, n) ==> FileOk(e, n) && Contents(d, n) == Contents(e, n)
  {
    if FileOk(d, n) {
      forall i | 0 <= i < n.size ensures Contents(d, n)[i] == Contents(e, n)[i] {
        assert Data(d, n, i / 512) == Data(e, n, i / 512);
      }
    }
  }

  // ---------------------------------------------------------------- growing

  /** The new all_blocks: old entries below c0, granted ones up to c1, zero above. */
  ghost predicate Grown(disk: seq<Sector>, n: Inode, c0: nat, c1: nat, fresh_: seq<nat>, all: seq<nat>) {
    && c0 <= c1 <= 140 && |fresh_| == c1 - c0 && |all| == 140
    && (forall k: nat :: k < c0 ==> all[k] == Block(disk, n, k))
    && (forall k: nat :: c0 <= k < c1 ==> all[k] == fresh_[k - c0])
    && (forall k: nat :: c1 <= k < 140 ==> all[k] == 0)
  }

  /** The grown file on disk: direct addresses in the inode, the rest in the table sector. */
  ghost predicate Stored(d: seq<Sector>, e: seq<Sector>, n: Inode, m: Inode, all: seq<nat>, table: nat) {
    && |all| == 140 && m.size == n.size && m.sectors[..12] == all[..12] && m.sectors[12] == table
    && (if table == 0 then e == d && forall k: nat :: 12 <= k < 140 ==> all[k] == 0
        else table < |d| && e == d[table := Unwords(all[12..])])
  }

  lemma StoredBlocks(d: seq<Sector>, e: seq<Sector>, n: Inode, m: Inode, all: seq<nat>, table: nat)
    requires Stored(d, e, n, m, all, table) && forall k :: 0 <= k < 140 ==> all[k] < 0x1_0000_0000
    ensures forall k: nat :: k < 140 ==> Block(e, m, k) == all[k]
  {
    forall k: nat | k < 140 ensures Block(e, m, k) == all[k] {
      if k < 12 {
        assert m.sectors[k] == m.sectors[..12][k] == all[..12][k];
      } else if table != 0 {
        TableRoundTrip(all[12..]);
      }
    }
  }

  /** Granted lbas fit a table word and are new to the inode. */
  lemma GrantedNew(fs: Fs, after: seq<bool>, got: seq<nat>, n: Inode)
    requires OwnInv(fs) && Placed(fs, n) && Granted(fs.dataStart, fs.bits, after, got)
    ensures forall b: nat :: b in got ==> 0 < b < |fs.disk| && !Owns(fs.disk, n, b)
  {
    forall b: nat | b in got ensures 0 < b < |fs.disk| && !Owns(fs.disk, n, b) {
      GotPlaced(fs, after, got, b);
    }
  }

  /**
   * Growing from c0 to c1 blocks: `got` are the granted lbas, the table first if it is new.  The file keeps its
   * data and gains exactly those blocks.
   */
  lemma GrowFile(fs: Fs, gs: Fs, ino: nat, c0: nat, c1: nat, all: seq<nat>, newTable: bool, fresh_: seq<nat>)
    requires OwnInv(fs) && ino in fs.inodes && ino in gs.inodes && c0 <= c1
    requires HoldsBlocks(fs.disk, fs.inodes[ino], c0)
    requires Grown(fs.disk, fs.inodes[ino], c0, c1, fresh_, all)
    requires newTable <==> c0 <= 12 < c1
    requires var table := gs.inodes[ino].sectors[12];
             && (!newTable ==> table == fs.inodes[ino].sectors[12])
             && Stored(fs.disk, gs.disk, fs.inodes[ino], gs.inodes[ino], all, table)
             && gs == fs.(disk := gs.disk, bits := gs.bits, inodes := fs.inodes[ino := gs.inodes[ino]])
             && Granted(fs.dataStart, fs.bits, gs.bits, (if newTable then [table] else []) + fresh_)
    ensures var got := (if newTable then [gs.inodes[ino].sectors[12]] else []) + fresh_;
            Extends(fs, gs, ino, got) && Distinct(gs.disk, gs.inodes[ino])
    ensures HoldsBlocks(gs.disk, gs.inodes[ino], c1)
    ensures forall k: nat :: k < 140 ==> Block(gs.disk, gs.inodes[ino], k) == all[k]
    ensures forall k: nat :: k < c0 ==> Data(gs.disk, gs.inodes[ino], k) == Data(fs.disk, fs.inodes[ino], k)
  {
    var n, m, table := fs.inodes[ino], gs.inodes[ino], gs.inodes[ino].sectors[12];
    var got := (if newTable then [table] else []) + fresh_;
    assert Placed(fs, n) && Distinct(fs.disk, n);
    GrantedNew(fs, gs.bits, got, n);
    AllSmall(fs, n, c0, c1, fresh_, all, got);
    StoredBlocks(fs.disk, gs.disk, n, m, all, table);
    GrownDistinct(fs.disk, gs.disk, n, m, c0, c1, fresh_, all, got, newTable);
    GrownHolds(fs.disk, gs.disk, n, m, c0, c1, fresh_, all, got, newTable);
    GrownOwns(fs.disk, gs.disk, n, m, c0, c1, fresh_, all, got, newTable);
    forall k: nat | k < c0 ensures Data(gs.disk, m, k) == Data(fs.disk, n, k) {
      assert Block(gs.disk, m, k) == Block(fs.disk, n, k) != table;
    }
  }

  lemma AllSmall(fs: Fs, n: Inode, c0: nat, c1: nat, fresh_: seq<nat>, all: seq<nat>, got: seq<nat>)
    requires |fs.disk| < 0x1_0000_0000 && Placed(fs, n) && Grown(fs.disk, n, c0, c1, fresh_, all)
    requires forall b: nat :: b in got ==> 0 < b < |fs.disk|
    requires forall i :: 0 <= i < |fresh_| ==> fresh_[i] in got
    ensures forall k :: 0 <= k < 140 ==> all[k] < 0x1_0000_0000
  {
    forall k: nat | k < 140 ensures all[k] < 0x1_0000_0000 {
      if k < c0 && Block(fs.disk, n, k) != 0 {
        assert Owns(fs.disk, n, Block(fs.disk, n, k));
      } else if c0 <= k < c1 {
        assert fresh_[k - c0] in got;
      }
    }
  }

  /** What GrowFile knows about the new block list. */
  ghost predicate GrowthFacts(d: seq<Sector>, e: seq<Sector>, n: Inode, m: Inode, c0: nat, c1: nat,
                              fresh_: seq<nat>, all: seq<nat>, got: seq<nat>, newTable: bool) {
    && Grown(d, n, c0, c1, fresh_, all) && HoldsBlocks(d, n, c0)
    && (forall k: nat :: k < 140 ==> Block(e, m, k) == all[k])
    && got == (if newTable then [m.sectors[12]] else []) + fresh_ && AllDifferent(got)
    && (newTable <==> c0 <= 12 < c1) && (!newTable ==> m.sectors[12] == n.sectors[12])
    && (forall b: nat :: b in got ==> b != 0 && !Owns(d, n, b))
  }

  lemma GrownDistinct(d: seq<Sector>, e: seq<Sector>, n: Inode, m: Inode, c0: nat, c1: nat,
                      fresh_: seq<nat>, all: seq<nat>, got: seq<nat>, newTable: bool)
    requires GrowthFacts(d, e, n, m, c0, c1, fresh_, all, got, newTable) && Distinct(d, n)
    ensures Distinct(e, m)
    ensures m.sectors[12] != 0 ==> forall k: nat :: k < 140 ==> Block(e, m, k) != m.sectors[12]
  {
    var o := |got| - |fresh_|;
    forall k: nat | c0 <= k < c1 ensures all[k] in got && all[k] == got[k - c0 + o] {
    }
    forall i: nat, j: nat | i < j < 140 && all[i] != 0 ensures all[i] != all[j] {
      if i < c0 {
        assert Owns(d, n, Block(d, n, i));
        assert j < c0 ==> Block(d, n, i) != Block(d, n, j);
      } else if j < c1 {
        assert got[i - c0 + o] != got[j - c0 + o];
      }
    }
    assert newTable ==> got[0] == m.sectors[12];
    if m.sectors[12] != 0 {
      forall k: nat | k < 140 ensures all[k] != m.sectors[12] {
        if newTable {
          assert got[0] == m.sectors[12];
          if k < c0 {
            assert Owns(d, n, Block(d, n, k));
          } else if k < c1 {
            assert got[0] != got[k - c0 + o];
          }
        } else {
          assert Owns(d, n, n.sectors[12]);
          assert k < c0 ==> Block(d, n, k) != n.sectors[12];
        }
      }
    }
  }

  lemma GrownHolds(d: seq<Sector>, e: seq<Sector>, n: Inode, m: Inode, c0: nat, c1: nat,
                   fresh_: seq<nat>, all: seq<nat>, got: seq<nat>, newTable: bool)
    requires GrowthFacts(d, e, n, m, c0, c1, fresh_, all, got, newTable)
    ensures HoldsBlocks(e, m, c1)
  {
    var o := |got| - |fresh_|;
    forall k: nat | k < 140 ensures Block(e, m, k) != 0 <==> k < c1 {
      assert Block(e, m, k) == all[k];
      if k < c0 {
        assert all[k] == Block(d, n, k) != 0;
      } else if k < c1 {
        assert all[k] == got[k - c0 + o] && all[k] in got;
      } else {
        assert all[k] == 0;
      }
    }
    if newTable {
      assert got[0] == m.sectors[12] && got[0] in got;
    }
  }

  lemma GrownOwns(d: seq<Sector>, e: seq<Sector>, n: Inode, m: Inode, c0: nat, c1: nat,
                  fresh_: seq<nat>, all: seq<nat>, got: seq<nat>, newTable: bool)
    requires GrowthFacts(d, e, n, m, c0, c1, fresh_, all, got, newTable)
    ensures forall b: nat :: Owns(e, m, b) <==> Owns(d, n, b) || b in got
  {
    forall b: nat | Owns(e, m, b) ensures Owns(d, n, b) || b in got {
      if b != m.sectors[12] {
        var k: nat :| k < 140 && Block(e, m, k) == b;
        assert k < c0 ==> Block(d, n, k) == b;
        assert c0 <= k < c1 ==> fresh_[k - c0] in got;
      } else if newTable {
        assert got[0] == b;
      }
    }
    forall b: nat | Owns(d, n, b) ensures Owns(e, m, b) {
      if b != n.sectors[12] {
        var k: nat :| k < 140 && Block(d, n, k) == b;
        assert Block(e, m, k) == b;
      } else {
        assert !newTable;
      }
    }
    forall b: nat | b in got ensures Owns(e, m, b) {
      var i :| 0 <= i < |got| && got[i] == b;
      var o := |got| - |fresh_|;
      if i >= o {
        assert Block(e, m, c0 + (i - o)) == b;
      }
    }
  }

  // ---------------------------------------------------------------- writing one sector of an inode

  /** Rewriting the sector of entry k changes that data and nothing else. */
  lemma WriteSector(fs: Fs, gs: Fs, ino: nat, k: nat, sec: Sector)
    requires OwnInv(fs) && ino in fs.inodes && k < 140 && Block(fs.disk, fs.inodes[ino], k) != 0
    requires Block(fs.disk, fs.inodes[ino], k) < |fs.disk|
    requires gs.disk == fs.disk[Block(fs.disk, fs.inodes[ino], k) := sec]
    ensures forall j: nat :: j < 140 ==> Block(gs.disk, fs.inodes[ino], j) == Block(fs.disk, fs.inodes[ino], j)
    ensures forall j: nat :: j < 140 ==>
              Data(gs.disk, fs.inodes[ino], j) == if j == k then sec else Data(fs.disk, fs.inodes[ino], j)
  {
    var n := fs.inodes[ino];
    var lba := Block(fs.disk, n, k);
    assert Distinct(fs.disk, n);
    assert n.sectors[12] != 0 ==> lba != n.sectors[12];
    forall j: nat | j < 140
      ensures Block(gs.disk, n, j) == Block(fs.disk, n, j)
      ensures Data(gs.disk, n, j) == if j == k then sec else Data(fs.disk, n, j)
    {
      assert Block(gs.disk, n, j) == Block(fs.disk, n, j);
      assert j != k ==> Block(fs.disk, n, j) != lba;
    }
  }

  /** Equal addresses are owned alike, whatever the size fields are. */
  lemma OwnsByBlocks(d: seq<Sector>, e: seq<Sector>, n: Inode, m: Inode)
    requires n.sectors[12] == m.sectors[12] && forall j: nat :: j < 140 ==> Block(d, n, j) == Block(e, m, j)
    ensures forall b: nat :: Owns(d, n, b) <==> Owns(e, m, b)
    ensures Distinct(d, n) <==> Distinct(e, m)
  {
    forall b: nat | b != n.sectors[12] && b != 0 ensures Owns(d, n, b) <==> Owns(e, m, b) {
      if Owns(d, n, b) {
        var k: nat :| k < 140 && Block(d, n, k) == b;
        assert Block(e, m, k) == b;
      }
      if Owns(e, m, b) {
        var k: nat :| k < 140 && Block(e, m, k) == b;
        assert Block(d, n, k) == b;
      }
    }
  }

  /** Rewriting a sector, possibly with a new size, keeps ownership and the other inodes. */
  lemma WriteExtends(fs: Fs, gs: Fs, ino: nat, k: nat, sec: Sector, size: nat)
    requires OwnInv(fs) && ino in fs.inodes && k < 140 && Block(fs.disk, fs.inodes[ino], k) != 0
    requires Block(fs.disk, fs.inodes[ino], k) < |fs.disk|
    requires gs == fs.(disk := fs.disk[Block(fs.disk, fs.inodes[ino], k) := sec],
                       inodes := fs.inodes[ino := fs.inodes[ino].(size := size)])
    ensures Extends(fs, gs, ino, []) && OwnInv(gs)
    ensures forall j :: j in fs.inodes && j != ino ==>
            SameInode(fs.disk, gs.disk, fs.inodes[j]) && gs.inodes[j] == fs.inodes[j]
  {
    var n, m := fs.inodes[ino], gs.inodes[ino];
    WriteSector(fs, gs, ino, k, sec);
    assert forall j: nat :: j < 140 ==> Block(gs.disk, m, j) == Block(gs.disk, n, j);
    OwnsByBlocks(fs.disk, gs.disk, n, m);
    assert Owns(fs.disk, n, Block(fs.disk, n, k));
    assert Granted(fs.dataStart, fs.bits, gs.bits, []);
    ExtendsInv(fs, gs, ino, []);
  }

  // ---------------------------------------------------------------- appending a chunk

  /**
   * One trip of the write loop: the chunk goes to the end of the file's last sector.  Bytes before the offset
   * come from the sector itself; after the first trip the offset is 0 and the rest of the sector is zero.
   */
  lemma AppendChunk(fs: Fs, gs: Fs, ino: nat, k: nat, off: nat, chunk: seq<Byte>, buf: Sector)
    requires OwnInv(fs) && ino in fs.inodes && fs.inodes[ino].size + |chunk| <= MAX_SIZE
    requires var n := fs.inodes[ino];
             && n.size == 512 * k + off && k < 140 && off + |chunk| <= 512 && off < 512
             && Block(fs.disk, n, k) != 0 && Block(fs.disk, n, k) < |fs.disk|
             && (off != 0 ==> buf == Data(fs.disk, n, k))
             && gs == fs.(disk := fs.disk[Block(fs.disk, n, k) := Splice(buf, off, chunk)],
                          inodes := fs.inodes[ino := n.(size := n.size + |chunk|)])
    ensures OwnInv(gs)
    ensures forall j: nat :: j < 140 ==> Block(gs.disk, gs.inodes[ino], j) == Block(fs.disk, fs.inodes[ino], j)
    ensures Contents(gs.disk, gs.inodes[ino]) == Contents(fs.disk, fs.inodes[ino]) + chunk
    ensures forall j :: j in fs.inodes && j != ino ==>
            SameInode(fs.disk, gs.disk, fs.inodes[j]) && gs.inodes[j] == fs.inodes[j]
  {
    hide OwnInv, Contents, Splice, Block, SameInode, Data;
    var n, m := fs.inodes[ino], gs.inodes[ino];
    var sec: Sector := Splice(buf, off, chunk);
    WriteExtends(fs, gs, ino, k, sec, m.size);
    WriteSector(fs, gs, ino, k, sec);
    SizeOnly(gs.disk, n, m);
    AppendedBytes(fs.disk, gs.disk, n, m, k, off, chunk, buf);
  }

  /** Addresses and data do not depend on the size field. */
  lemma SizeOnly(d: seq<Sector>, n: Inode, m: Inode)
    requires m.sectors == n.sectors
    ensures forall j: nat :: j < 140 ==> Block(d, m, j) == Block(d, n, j) && Data(d, m, j) == Data(d, n, j)
  {
  }

  lemma AppendedBytes(d: seq<Sector>, e: seq<Sector>, n: Inode, m: Inode, k: nat, off: nat, chunk: seq<Byte>,
                      buf: Sector)
    requires m == n.(size := n.size + |chunk|) && m.size <= MAX_SIZE
    requires n.size == 512 * k + off && off + |chunk| <= 512 && off < 512
    requires off != 0 ==> buf == Data(d, n, k)
    requires forall j: nat :: j < 140 ==> Data(e, m, j) == if j == k then Splice(buf, off, chunk) else Data(d, n, j)
    ensures Contents(e, m) == Contents(d, n) + chunk
  {
    hide Data;
    forall i: nat | i < m.size ensures Contents(e, m)[i] == (Contents(d, n) + chunk)[i] {
      AppendedByte(n.size, i, k, off, |chunk|);
      assert Contents(e, m)[i] == Data(e, m, i / 512)[i % 512];
    }
  }

  lemma AppendedByte(size: nat, i: nat, k: nat, off: nat, count: nat)
    requires size == 512 * k + off && i < size + count && off + count <= 512 && off < 512
    ensures i < size && i / 512 == k ==> i % 512 < off
    ensures i >= size ==> i / 512 == k && i % 512 == off + (i - size)
    ensures i / 512 <= k
  {
    if i >= 512 * k {
      Quotient(i, k, i - 512 * k);
    }
  }

  lemma Quotient(i: nat, q: nat, r: nat)
    requires i == 512 * q + r && r < 512
    ensures i / 512 == q && i % 512 == r
  {
  }
}
