// fs/fs.c partition_format: where everything lies in a partition, and the bitmap it starts with.

module Format {
  import opened Disk
  import opened Bitmaps
  import opened Ownership
  import opened Records
  import opened Files
  import opened FileSystem
  import opened Entries
  import opened Directories
  import opened Unlink
  import opened MakeDir

  /** Boot sector, super block, inode bitmap and inode table. */
  const FIXED: nat := 611

  function RoundUp(x: nat, step: nat): nat
    requires step > 0
  {
    (x + step - 1) / step
  }

  /** The super block's numbers; sectors are counted from the start of the partition. */
  datatype Layout = Layout(
    bitLen: nat,
    blockBitmap: nat,
    blockBitmapSects: nat,
    inodeBitmap: nat,
    inodeTable: nat,
    data: nat)

  /** The first estimate of the bitmap's own size, and the layout made with the second. */
  function FirstGuess(secCnt: nat): nat {
    if secCnt < FIXED then 0 else RoundUp(secCnt - FIXED, 4096)
  }

  function Plan(secCnt: nat): Layout
    requires secCnt >= FIXED + 2
  {
    var free := secCnt - FIXED;
    var bitLen := free - FirstGuess(secCnt);
    var sects := RoundUp(bitLen, 4096);
    Layout(bitLen, 2, sects, 2 + sects, 3 + sects, 3 + sects + 608)
  }

  /**
   * For every admissible size: the areas follow one another without gap or overlap and end inside the partition; the
   * bitmap has a bit for every counted block; and the second estimate never exceeds the first, by which much the
   * sectors at the end of the partition are not counted.
   */
  lemma LayoutFits(secCnt: nat)
    requires secCnt >= FIXED + 2
    ensures var l := Plan(secCnt);
            && l.blockBitmap == 2 && l.inodeBitmap == l.blockBitmap + l.blockBitmapSects
            && l.inodeTable == l.inodeBitmap + 1
            && l.data == l.inodeTable + 608 && l.data + l.bitLen <= secCnt
            && 1 <= l.bitLen <= 4096 * l.blockBitmapSects < l.bitLen + 4096
            && l.blockBitmapSects <= FirstGuess(secCnt)
            && secCnt - l.data == l.bitLen + (FirstGuess(secCnt) - l.blockBitmapSects)
  {
    var free := secCnt - FIXED;
    var guess := FirstGuess(secCnt);
    GuessSmall(free);
    Counted(free - guess);
    Counted(free);
    SecondGuess(free, guess, Plan(secCnt).blockBitmapSects);
  }

  lemma GuessSmall(free: nat)
    requires free >= 2
    ensures 1 <= RoundUp(free, 4096) < free
  {
  }

  lemma Counted(x: nat)
    ensures x <= 4096 * RoundUp(x, 4096) < x + 4096
  {
  }

  lemma SecondGuess(free: nat, g: nat, h: nat)
    requires free <= 4096 * g < free + 4096 && g < free && free - g <= 4096 * h < free - g + 4096
    ensures h <= g
  {
    assert 4096 * h < 4096 * g + 4096;
  }

  // ---------------------------------------------------------------- the first block bitmap

  /**
   * The code's test on the last byte: bits up to and including last_bit are cleared; the intended one stops before it.
   */
  datatype LastByteLoop = Code | Intended

  /**
   * The block bitmap as it is written to disk.  The first bit is set for the root directory, then the last byte of the
   * map and what follows in its sector is filled with ones, then the valid bits of that byte are cleared again.
   */
  method FillBitmap(bitLen: nat, sects: nat, loop: LastByteLoop) returns (bits: seq<bool>)
    requires 1 <= bitLen <= 4096 * sects < bitLen + 4096
    ensures |bits| == 4096 * sects
    ensures forall k: nat :: k < |bits| ==>
            (bits[k] <==> (k == 0 && bitLen >= 8) || (if loop == Code then k > bitLen else k >= bitLen))
  {
    var n := 4096 * (sects + 1);
    bits := seq(n, k => false)[0 := true];
    var lastByte, lastBit := bitLen / 8, bitLen % 8;
    var lastSize := 512 - lastByte % 512;
    var k := 8 * lastByte;
    SectorEnd(bitLen, sects);
    while k < 8 * (lastByte + lastSize)
      invariant 8 * lastByte <= k <= 8 * (lastByte + lastSize) && |bits| == n
      invariant forall j: nat :: j < n ==> (bits[j] <==> j == 0 || 8 * lastByte <= j < k)
    {
      bits := bits[k := true];
      k := k + 1;
    }
    var i := 0;
    while i < lastBit || (i == lastBit && loop == Code)
      invariant i <= lastBit + 1 && (loop == Intended ==> i <= lastBit) && |bits| == n
      invariant forall j: nat :: j < n ==>
                  (bits[j] <==>
                   && (j == 0 || 8 * lastByte <= j < 8 * (lastByte + lastSize))
                   && !(8 * lastByte <= j < 8 * lastByte + i))
      decreases lastBit + 1 - i
    {
      bits := bits[8 * lastByte + i := false];
      i := i + 1;
    }
    bits := bits[..4096 * sects];
  }

  /** The filled stretch ends where the last sector of the bitmap ends, or lies wholly behind it. */
  lemma SectorEnd(bitLen: nat, sects: nat)
    requires 1 <= bitLen <= 4096 * sects < bitLen + 4096
    ensures var lastByte := bitLen / 8;
            var end := 8 * (lastByte + (512 - lastByte % 512));
            && end <= 4096 * (sects + 1) && (bitLen < 4096 * sects ==> end == 4096 * sects)
            && (bitLen == 4096 * sects ==> 8 * lastByte == 4096 * sects)
  {
    var lastByte := bitLen / 8;
    var q := lastByte / 512;
    assert lastByte == 512 * q + lastByte % 512;
    assert lastByte + (512 - lastByte % 512) == 512 * (q + 1);
    if bitLen < 4096 * sects {
      assert q == sects - 1;
    } else {
      assert q == sects;
    }
  }

  /** Every clear bit of the bitmap stands for a sector of the partition. */
  ghost predicate BitsInside(bits: seq<bool>, data: nat, secCnt: nat) {
    forall k: nat :: k < |bits| && !bits[k] ==> data + k < secCnt
  }

  /**
   * With the intended loop every clear bit names a sector of the partition.  The code clears one bit more, and then it
   * holds exactly when that bit is not on disk (the bitmap's last sector is full) or an uncounted sector is behind it.
   */
  lemma ClearBitsInside(secCnt: nat, bits: seq<bool>, loop: LastByteLoop)
    requires secCnt >= FIXED + 2 && Plan(secCnt).bitLen >= 8
    requires var l := Plan(secCnt);
             && |bits| == 4096 * l.blockBitmapSects
             && forall k: nat :: k < |bits| ==>
                 (bits[k] <==> k == 0 || (if loop == Code then k > l.bitLen else k >= l.bitLen))
    ensures var l := Plan(secCnt);
            BitsInside(bits, l.data, secCnt) <==>
              loop == Intended || l.bitLen == |bits| || l.blockBitmapSects < FirstGuess(secCnt)
  {
    hide FirstGuess, Plan;
    LayoutFits(secCnt);
    var l := Plan(secCnt);
    if loop == Code && l.bitLen < |bits| {
      assert !bits[l.bitLen];
    }
  }

  /**
   * The smallest partition where the code's loop goes wrong with the root's bit intact: 621 sectors have 9 blocks, and
   * the tenth bit, sector 621 of the partition, is clear too.  Once the nine are taken it is the next to be handed out.
   */
  lemma ClearBitOutside(bits: seq<bool>)
    requires |bits| == 4096 && forall k: nat :: k < 4096 ==> (bits[k] <==> k == 0 || k > 9)
    ensures Plan(621) == Layout(9, 2, 1, 3, 4, 612) && !bits[9] && !BitsInside(bits, 612, 621)
    ensures FirstClear(seq(9, _ => true) + bits[9..]) == 9 && 612 + 9 == 621
  {
    var taken := seq(9, _ => true) + bits[9..];
    assert taken[9] == bits[9];
    FirstClearIs(taken, 9);
  }

  // ---------------------------------------------------------------- a formatted partition

  /** Root directory: inode 0, two entries, the first data block. */
  function RootInode(data: nat): Ownership.Inode {
    Inode(48, seq(13, k => if k == 0 then data else 0))
  }

  /** The mounted state right after formatting; blocks with a set bit, the root's aside, are reserved. */
  ghost predicate Formatted(fs: Fs) {
    && |fs.bits| > 8 && fs.bits[0] && 0 < fs.dataStart < |fs.disk| < 0x1_0000_0000
    && fs.inodes == map[0 := RootInode(fs.dataStart)]
    && fs.disk[fs.dataStart] == DotsSector(0, 0)
    && (forall b: nat :: b in fs.reserved <==> fs.dataStart < b < fs.dataStart + |fs.bits| && fs.bits[b - fs.dataStart])
    && (forall k: nat :: k < |fs.bits| && !fs.bits[k] ==> fs.dataStart + k < |fs.disk|)
  }

  /** The state partition_format and the mount that follows it leave on a disk that ends with the partition. */
  ghost function FormattedFs(disk: seq<Sector>, bits: seq<bool>, data: nat): Fs
    requires data < |disk|
  {
    Fs(disk[data := DotsSector(0, 0)], bits, map[0 := RootInode(data)], data, SetAbove(bits, data, |bits|))
  }

  /** The blocks data + 1, ..., data + n - 1 whose bit is set. */
  ghost function SetAbove(bits: seq<bool>, data: nat, n: nat): (r: set<nat>)
    requires n <= |bits|
    ensures forall b: nat :: b in r <==> data < b < data + n && bits[b - data]
  {
    if n <= 1 then {}
    else SetAbove(bits, data, n - 1) + if bits[n - 1] then {data + n - 1} else {}
  }

  /** For every admissible size, and the exact condition of ClearBitsInside, the formatted partition is Formatted. */
  lemma FormatYields(start: nat, secCnt: nat, disk: seq<Sector>, bits: seq<bool>, loop: LastByteLoop)
    requires secCnt >= FIXED + 2 && Plan(secCnt).bitLen >= 8 && |disk| == start + secCnt < 0x1_0000_0000
    requires var l := Plan(secCnt);
             && |bits| == 4096 * l.blockBitmapSects
             && (forall k: nat :: k < |bits| ==>
                 (bits[k] <==> k == 0 || (if loop == Code then k > l.bitLen else k >= l.bitLen)))
             && (loop == Intended || l.bitLen == |bits| || l.blockBitmapSects < FirstGuess(secCnt))
    ensures start + Plan(secCnt).data < |disk| && Formatted(FormattedFs(disk, bits, start + Plan(secCnt).data))
  {
    hide FirstGuess, Plan, DotsSector;
    LayoutFits(secCnt);
    ClearBitsInside(secCnt, bits, loop);
  }

  /** What formatting leaves satisfies every invariant the other operations start from. */
  lemma FormatEstablishes(fs: Fs)
    requires Formatted(fs)
    ensures OwnInv(fs) && RootOwns(fs) && RootBit(fs.bits) && DirOk(fs.disk, fs.inodes[0]) && LeadsInside(fs, 0)
  {
    hide Owns, DirOk, Distinct, DotsSector, EntriesOf, Data, Live;
    var n := RootInode(fs.dataStart);
    RootBlocks(fs.disk, fs.dataStart);
    RootData(fs);
    FreshDir(fs.disk, n, 0, 0);
    assert 0 in fs.inodes && fs.inodes[0] == n && Owns(fs.disk, fs.inodes[0], fs.dataStart);
    FreshLeadsInside(fs);
  }

  lemma RootBlocks(d: seq<Sector>, data: nat)
    requires data > 0
    ensures forall b: nat :: Owns(d, RootInode(data), b) <==> b == data
    ensures Distinct(d, RootInode(data))
  {
    var n := RootInode(data);
    forall k: nat | k < 140 ensures Block(d, n, k) == if k == 0 then data else 0 {
    }
    hide Block;
    assert Block(d, n, 0) == data;
  }

  lemma RootData(fs: Fs)
    requires Formatted(fs)
    ensures Data(fs.disk, RootInode(fs.dataStart), 0) == DotsSector(0, 0)
  {
    hide DotsSector;
  }

  lemma FormattedTable(fs: Fs)
    requires Formatted(fs)
    ensures 0 in fs.inodes && FreshTable(EntriesOf(fs.disk, fs.inodes[0]), 0, 0)
  {
    hide DotsSector, EntriesOf, Data, FreshTable, DirOk;
    RootData(fs);
    FreshDir(fs.disk, RootInode(fs.dataStart), 0, 0);
  }

  lemma FreshLeadsInside(fs: Fs)
    requires 0 in fs.inodes && FreshTable(EntriesOf(fs.disk, fs.inodes[0]), 0, 0)
    ensures LeadsInside(fs, 0)
  {
    hide EntriesOf, MakeEntry, Live, Target, Free;
    FreeIsFree();
  }
}
