// fs/inode.c: the packed inode table, inode_sync and inode_open on it, and the list of open inodes.

module InodeTable {
  import opened Disk

  const INODE_SIZE: nat := 76
  const INODES: nat := 4096

  // ---------------------------------------------------------------- where a slot is

  /** struct inode_position */
  datatype Position = Position(twoSectors: bool, sector: nat, offset: nat)

  /** inode_locate; sectors are counted from the start of the table */
  function Locate(no: nat): Position {
    var off := no * INODE_SIZE;
    Position(512 - off % 512 < INODE_SIZE, off / 512, off % 512)
  }

  /** two_sec holds exactly when the slot's first and last byte are in different sectors; the second is the next one. */
  lemma TwoSectors(no: nat)
    ensures var p := Locate(no); var first, last := no * INODE_SIZE / 512, (no * INODE_SIZE + INODE_SIZE - 1) / 512;
            && p.sector == first && (p.twoSectors <==> last != first) && last <= first + 1
            && 512 * p.sector + p.offset == no * INODE_SIZE
  {
  }

  /** Slots are disjoint, and all 4096 of them fill the 608 sectors of the table exactly. */
  lemma SlotsApart(i: nat, j: nat)
    requires i < j < INODES
    ensures i * INODE_SIZE + INODE_SIZE <= j * INODE_SIZE && j * INODE_SIZE + INODE_SIZE <= 608 * 512
    ensures var p := Locate(j); p.sector + (if p.twoSectors then 1 else 0) < 608
  {
    TwoSectors(j);
    assert (j * INODE_SIZE + INODE_SIZE - 1) / 512 < 608;
  }

  // ---------------------------------------------------------------- the record

  /** struct inode with all its fields, in the order of the record on disk */
  datatype StructInode = StructInode(no: nat, size: nat, opens: nat, deny: bool, sectors: seq<nat>, prev: nat,
      next: nat)

  predicate Fits(n: StructInode) {
    && n.no < 0x1_0000_0000 && n.size < 0x1_0000_0000 && n.opens < 0x1_0000_0000 && n.prev < 0x1_0000_0000
    && n.next < 0x1_0000_0000
    && |n.sectors| == 13 && forall k :: 0 <= k < 13 ==> n.sectors[k] < 0x1_0000_0000
  }

  /** The 19 words of the record; write_deny is a byte and three bytes of padding. */
  function WordsOf(n: StructInode): (ws: seq<nat>)
    requires |n.sectors| == 13
    ensures |ws| == 19
  {
    [n.no, n.size, n.opens, if n.deny then 1 else 0] + n.sectors + [n.prev, n.next]
  }

  function Bytes(ws: seq<nat>): (s: seq<Byte>)
    ensures |s| == 4 * |ws|
  {
    seq(4 * |ws|, i requires 0 <= i < 4 * |ws| => ByteOf(ws[i / 4], i % 4))
  }

  lemma BytesWord(ws: seq<nat>, k: nat)
    requires k < |ws| && ws[k] < 0x1_0000_0000
    ensures Word(Bytes(ws), 4 * k) == ws[k]
  {
    assert (4 * k) / 4 == k && (4 * k + 1) / 4 == k && (4 * k + 2) / 4 == k && (4 * k + 3) / 4 == k;
    assert (4 * k) % 4 == 0 && (4 * k + 1) % 4 == 1 && (4 * k + 2) % 4 == 2 && (4 * k + 3) % 4 == 3;
    WordRoundTrip(ws[k]);
  }

  function Encode(n: StructInode): (s: seq<Byte>)
    requires |n.sectors| == 13
    ensures |s| == INODE_SIZE
  {
    Bytes(WordsOf(n))
  }

  function Decode(s: seq<Byte>): (n: StructInode)
    requires |s| == INODE_SIZE
  {
    StructInode(Word(s, 0), Word(s, 4), Word(s, 8), s[12] != 0, seq(13, k requires 0 <= k < 13 => Word(s, 16 + 4 * k)),
        Word(s, 68), Word(s, 72))
  }

  lemma RecordRoundTrip(n: StructInode)
    requires Fits(n)
    ensures Decode(Encode(n)) == n
  {
    hide Word, Bytes;
    var ws, s := WordsOf(n), Encode(n);
    forall k: nat | k < 19 ensures Word(s, 4 * k) == ws[k] {
      assert ws[k] < 0x1_0000_0000;
      BytesWord(ws, k);
    }
    assert Word(s, 4 * 0) == n.no && Word(s, 4 * 1) == n.size && Word(s, 4 * 2) == n.opens;
    assert Word(s, 4 * 17) == n.prev && Word(s, 4 * 18) == n.next;
    forall k: nat | k < 13 ensures Word(s, 16 + 4 * k) == n.sectors[k] {
      assert Word(s, 4 * (4 + k)) == ws[4 + k];
    }
    DenyByte(ws);
    assert Decode(s).sectors == n.sectors;
  }

  /** Where the fields of struct inode lie in the record, lowest byte first. */
  lemma RecordLayout(n: StructInode)
    requires Fits(n)
    ensures var s := Encode(n);
            && Little(s, 0) == n.no && Little(s, 4) == n.size && Little(s, 8) == n.opens
            && (s[12] != 0 <==> n.deny) && s[13] == s[14] == s[15] == 0
            && (forall k: nat :: k < 13 ==> Little(s, 16 + 4 * k) == n.sectors[k])
  {
    hide Bytes, Encode;
    RecordRoundTrip(n);
    var s := Encode(n);
    assert Word(s, 0) == n.no && Word(s, 4) == n.size && Word(s, 8) == n.opens;
    forall k: nat | k < 13 ensures Word(s, 16 + 4 * k) == n.sectors[k] {
      assert Decode(s).sectors[k] == n.sectors[k];
    }
    PaddingBytes(n);
  }

  lemma PaddingBytes(n: StructInode)
    requires |n.sectors| == 13
    ensures var s := Encode(n); s[12] == (if n.deny then 1 else 0) && s[13] == s[14] == s[15] == 0
  {
    var ws := WordsOf(n);
    assert ws[3] == if n.deny then 1 else 0;
  }

  lemma DenyByte(ws: seq<nat>)
    requires |ws| == 19 && ws[3] <= 1
    ensures Bytes(ws)[12] == ws[3]
  {
  }

  /** What inode_sync writes: the fields that only make sense in memory are cleared. */
  function Pure(n: StructInode): StructInode {
    n.(opens := 0, deny := false, prev := 0, next := 0)
  }

  // ---------------------------------------------------------------- the table on disk

  /** Byte k of the inode table. */
  function TableByte(disk: seq<Sector>, table: nat, k: nat): Byte {
    if table + k / 512 < |disk| then disk[table + k / 512][k % 512] else 0
  }

  function SlotBytes(disk: seq<Sector>, table: nat, no: nat): (s: seq<Byte>)
    ensures |s| == INODE_SIZE
  {
    seq<Byte>(INODE_SIZE, i requires 0 <= i < INODE_SIZE => TableByte(disk, table, no * INODE_SIZE + i))
  }

  function ZeroSlot(): (s: seq<Byte>)
    ensures |s| == INODE_SIZE
  {
    seq(INODE_SIZE, _ => 0)
  }

  /** Byte k of the table once slot `no` holds s. */
  function SlotOr(disk: seq<Sector>, table: nat, no: nat, s: seq<Byte>, k: nat): Byte
    requires |s| == INODE_SIZE
  {
    if no * INODE_SIZE <= k < no * INODE_SIZE + INODE_SIZE then s[k - no * INODE_SIZE] else TableByte(disk, table, k)
  }

  /** Slot `no` was rewritten, and nothing else on the disk. */
  ghost predicate SlotWritten(d: seq<Sector>, e: seq<Sector>, table: nat, no: nat, s: seq<Byte>) {
    && |s| == INODE_SIZE && |e| == |d|
    && (forall k: nat :: TableByte(e, table, k) == SlotOr(d, table, no, s, k))
    && (forall lba: nat :: lba < |d| && lba < table ==> e[lba] == d[lba])
  }

  lemma WrittenSlots(d: seq<Sector>, e: seq<Sector>, table: nat, no: nat, s: seq<Byte>, j: nat)
    requires SlotWritten(d, e, table, no, s)
    ensures SlotBytes(e, table, j) == if j == no then s else SlotBytes(d, table, j)
  {
    if j < no {
      assert j * INODE_SIZE + INODE_SIZE <= no * INODE_SIZE;
    } else if no < j {
      assert no * INODE_SIZE + INODE_SIZE <= j * INODE_SIZE;
    }
  }

  /** Copying bytes into one sector is copying bytes into the table. */
  lemma SpliceOne(d: seq<Sector>, table: nat, sec: nat, off: nat, s: seq<Byte>, k: nat)
    requires table + sec < |d| && off + |s| <= 512
    ensures TableByte(d[table + sec := Splice(d[table + sec], off, s)], table, k) ==
            if 512 * sec + off <= k < 512 * sec + off + |s| then s[k - (512 * sec + off)] else TableByte(d, table, k)
  {
  }

  function Join(a: seq<Byte>, b: seq<Byte>): seq<Byte> {
    a + b
  }

  class InodeDisk {
    var disk: seq<Sector>
    const table: nat

    constructor (disk: seq<Sector>, table: nat)
      requires table + 608 <= |disk|
      ensures this.disk == disk && this.table == table && Valid()
    {
      this.disk, this.table := disk, table;
    }

    ghost predicate Valid()
      reads this
    {
      table + 608 <= |disk|
    }

    /**
     * The part that inode_sync and inode_delete share: one or two sectors are read, changed in the slot and written
     * back.
     */
    method PutSlot(no: nat, s: seq<Byte>)
      requires Valid() && no < INODES && |s| == INODE_SIZE
      modifies this`disk
      ensures Valid() && SlotWritten(old(disk), disk, table, no, s)
    {
      hide Splice;
      var pos := Locate(no);
      TwoSectors(no);
      SlotInTable(no);
      if pos.twoSectors {
        var left := 512 - pos.offset;
        SplitCopy(disk, table, pos.sector, pos.offset, s);
        disk := disk[table + pos.sector := Splice(disk[table + pos.sector], pos.offset, s[..left])];
        disk := disk[table + pos.sector + 1 := Splice(disk[table + pos.sector + 1], 0, s[left..])];
      } else {
        ghost var after := disk[table + pos.sector := Splice(disk[table + pos.sector], pos.offset, s)];
        forall k: nat ensures TableByte(after, table, k) == SlotOr(disk, table, no, s, k) {
          SpliceOne(disk, table, pos.sector, pos.offset, s, k);
        }
        disk := disk[table + pos.sector := Splice(disk[table + pos.sector], pos.offset, s)];
      }
    }

    /** inode_sync: the number is narrowed to eight bits before it is located. */
    method Sync(n: StructInode)
      requires Valid() && |n.sectors| == 13
      modifies this`disk
      ensures Valid() && SlotWritten(old(disk), disk, table, n.no % 256, Encode(Pure(n)))
    {
      hide Encode;
      PutSlot(n.no % 256, Encode(Pure(n)));
    }

    /** inode_delete: the whole slot is zeroed, and the number is not narrowed. */
    method Delete(no: nat)
      requires Valid() && no < INODES
      modifies this`disk
      ensures Valid() && SlotWritten(old(disk), disk, table, no, ZeroSlot())
    {
      PutSlot(no, ZeroSlot());
    }

    /** The reading half of inode_open: one or two sectors, and the record copied out of them. */
    method Fetch(no: nat) returns (n: StructInode)
      requires Valid() && no < INODES
      ensures n == Decode(SlotBytes(disk, table, no))
    {
      hide Decode;
      var pos := Locate(no);
      TwoSectors(no);
      SlotInTable(no);
      var buf := disk[table + pos.sector];
      var both: seq<Byte> := buf;
      if pos.twoSectors {
        both := Join(buf, disk[table + pos.sector + 1]);
      }
      CopyOut(disk, table, no, both);
      n := Decode(both[pos.offset..pos.offset + INODE_SIZE]);
    }
  }

  lemma SlotInTable(no: nat)
    requires no < INODES
    ensures var p := Locate(no); p.sector + (if p.twoSectors then 1 else 0) < 608
  {
    TwoSectors(no);
    assert (no * INODE_SIZE + INODE_SIZE - 1) / 512 < 608;
  }

  /** Copying into two adjacent sectors is copying into the table. */
  lemma SplitCopy(d: seq<Sector>, table: nat, sec: nat, off: nat, s: seq<Byte>)
    requires table + sec + 1 < |d| && off < 512 < off + |s| <= 1024
    ensures var one := d[table + sec := Splice(d[table + sec], off, s[..512 - off])];
            var two := one[table + sec + 1 := Splice(one[table + sec + 1], 0, s[512 - off..])];
            forall k: nat :: TableByte(two, table, k) ==
              if 512 * sec + off <= k < 512 * sec + off + |s| then s[k - (512 * sec + off)] else TableByte(d, table, k)
  {
    hide Splice, TableByte;
    var left := 512 - off;
    var one := d[table + sec := Splice(d[table + sec], off, s[..left])];
    var two := one[table + sec + 1 := Splice(one[table + sec + 1], 0, s[left..])];
    forall k: nat
      ensures TableByte(two, table, k) ==
              if 512 * sec + off <= k < 512 * sec + off + |s| then s[k - (512 * sec + off)] else TableByte(d, table, k)
    {
      SpliceOne(d, table, sec, off, s[..left], k);
      SpliceOne(one, table, sec + 1, 0, s[left..], k);
    }
  }

  lemma CopyOut(d: seq<Sector>, table: nat, no: nat, buf: seq<Byte>)
    requires table + 608 <= |d| && no < INODES
    requires var p := Locate(no); p.sector + 1 < 608 || !p.twoSectors
    requires var p := Locate(no);
             && p.sector < 608
             && buf == if p.twoSectors then Join(d[table + p.sector], d[table + p.sector + 1]) else d[table + p.sector]
    ensures var p := Locate(no);
            && p.offset + INODE_SIZE <= |buf|
            && buf[p.offset..p.offset + INODE_SIZE] == SlotBytes(d, table, no)
  {
    var p := Locate(no);
    TwoSectors(no);
    var s := buf[p.offset..p.offset + INODE_SIZE];
    forall i: nat | i < INODE_SIZE ensures s[i] == SlotBytes(d, table, no)[i] {
      CopyByte(no, p, i);
    }
  }

  lemma CopyByte(no: nat, p: Position, i: nat)
    requires p == Locate(no) && i < INODE_SIZE
    ensures var k := no * INODE_SIZE + i;
            if p.offset + i < 512 then k / 512 == p.sector && k % 512 == p.offset + i
            else k / 512 == p.sector + 1 && k % 512 == p.offset + i - 512
  {
    TwoSectors(no);
    var k, r := no * INODE_SIZE + i, p.offset + i;
    assert k == 512 * p.sector + r;
  }

  /** inode_sync, then a fresh inode_open: the persistent fields come back, and every other slot is as it was. */
  lemma SyncOpen(d: seq<Sector>, e: seq<Sector>, table: nat, n: StructInode)
    requires Fits(n) && SlotWritten(d, e, table, n.no % 256, Encode(Pure(n)))
    ensures n.no < 256 ==> Decode(SlotBytes(e, table, n.no)) == Pure(n)
    ensures forall j: nat :: j != n.no % 256 ==> SlotBytes(e, table, j) == SlotBytes(d, table, j)
  {
    hide SlotWritten, SlotBytes, Encode, Decode;
    WrittenSlots(d, e, table, n.no % 256, Encode(Pure(n)), n.no % 256);
    RecordRoundTrip(Pure(n));
    forall j: nat | j != n.no % 256 ensures SlotBytes(e, table, j) == SlotBytes(d, table, j) {
      WrittenSlots(d, e, table, n.no % 256, Encode(Pure(n)), j);
    }
  }

  /**
   * For an inode number of 256 or more the record lands in another inode's slot and the inode's own slot keeps its
   * old bytes.
   */
  lemma SyncMisses(d: seq<Sector>, e: seq<Sector>, table: nat, n: StructInode)
    requires Fits(n) && SlotWritten(d, e, table, n.no % 256, Encode(Pure(n)))
    ensures n.no >= 256 ==>
            SlotBytes(e, table, n.no) == SlotBytes(d, table, n.no) && Decode(SlotBytes(e, table, n.no % 256)) == Pure(n)
  {
    hide SlotWritten, SlotBytes, Encode, Decode;
    WrittenSlots(d, e, table, n.no % 256, Encode(Pure(n)), n.no % 256);
    WrittenSlots(d, e, table, n.no % 256, Encode(Pure(n)), n.no);
    RecordRoundTrip(Pure(n));
  }

  // ---------------------------------------------------------------- the list of open inodes

  /** An element of open_inodes: the number and i_open_cnts. */
  datatype Opened = Opened(no: nat, opens: nat)

  /** How often an inode is open. */
  function OpensOf(list: seq<Opened>, no: nat): nat {
    if list == [] then 0 else if list[0].no == no then list[0].opens else OpensOf(list[1..], no)
  }

  /** One object per inode, each open at least once. */
  ghost predicate CacheOk(list: seq<Opened>) {
    && (forall i, j :: 0 <= i < j < |list| ==> list[i].no != list[j].no)
    && (forall i :: 0 <= i < |list| ==> list[i].opens >= 1)
  }

  lemma {:induction false} OpensAt(list: seq<Opened>, i: nat)
    requires CacheOk(list) && i < |list|
    ensures OpensOf(list, list[i].no) == list[i].opens
  {
    if i > 0 {
      assert list[1..][i - 1] == list[i];
      OpensAt(list[1..], i - 1);
    }
  }

  lemma {:induction false} OpensNone(list: seq<Opened>, no: nat)
    requires forall i :: 0 <= i < |list| ==> list[i].no != no
    ensures OpensOf(list, no) == 0
  {
    if list != [] {
      OpensNone(list[1..], no);
    }
  }

  lemma {:induction false} OpensElsewhere(list: seq<Opened>, i: nat, e: Opened, no: nat)
    requires i < |list| && e.no == list[i].no && no != e.no
    ensures OpensOf(list[i := e], no) == OpensOf(list, no)
  {
    if i > 0 {
      assert list[i := e][1..] == list[1..][i - 1 := e];
      OpensElsewhere(list[1..], i - 1, e, no);
    }
  }

  lemma {:induction false} OpensRemoved(list: seq<Opened>, i: nat, no: nat)
    requires i < |list| && no != list[i].no
    ensures OpensOf(list[..i] + list[i + 1..], no) == OpensOf(list, no)
  {
    if i == 0 {
      assert list[..i] + list[i + 1..] == list[1..];
    } else {
      assert (list[..i] + list[i + 1..])[1..] == list[1..][..i - 1] + list[1..][i..];
      OpensRemoved(list[1..], i - 1, no);
    }
  }

  class OpenInodes {
    var list: seq<Opened>

    constructor ()
      ensures list == [] && CacheOk(list)
    {
      list := [];
    }

    /** The search loop of inode_open. */
    method Find(no: nat) returns (i: nat)
      ensures i <= |list| && (i < |list| ==> list[i].no == no) && forall j :: 0 <= j < i ==> list[j].no != no
    {
      i := 0;
      while i < |list|
        invariant i <= |list| && forall j :: 0 <= j < i ==> list[j].no != no
      {
        if list[i].no == no {
          return;
        }
        i := i + 1;
      }
    }

    /** inode_open: the object in memory if there is one, else a new one at the front. */
    method Open(no: nat) returns (fetched: bool)
      requires CacheOk(list)
      modifies this
      ensures CacheOk(list) && (fetched <==> OpensOf(old(list), no) == 0)
      ensures OpensOf(list, no) == OpensOf(old(list), no) + 1
      ensures fetched ==> list == [Opened(no, 1)] + old(list)
      ensures forall j: nat :: j != no ==> OpensOf(list, j) == OpensOf(old(list), j)
    {
      var i := Find(no);
      if i < |list| {
        OpensAt(list, i);
        ghost var was := list;
        list := list[i := Opened(no, list[i].opens + 1)];
        OpensAt(list, i);
        forall j: nat | j != no ensures OpensOf(list, j) == OpensOf(was, j) {
          OpensElsewhere(was, i, list[i], j);
        }
        return false;
      }
      OpensNone(list, no);
      ghost var was := list;
      list := [Opened(no, 1)] + list;
      assert list[1..] == was;
      return true;
    }

    /** inode_close: the last close takes the object off the list. */
    method Close(no: nat)
      requires CacheOk(list) && OpensOf(list, no) >= 1
      modifies this
      ensures CacheOk(list) && OpensOf(list, no) == OpensOf(old(list), no) - 1
      ensures forall j: nat :: j != no ==> OpensOf(list, j) == OpensOf(old(list), j)
    {
      var i := Find(no);
      if i == |list| {
        OpensNone(list, no);
        assert false;
      }
      OpensAt(list, i);
      ghost var was := list;
      if list[i].opens - 1 == 0 {
        list := list[..i] + list[i + 1..];
        OpensNone(list, no);
        forall j: nat | j != no ensures OpensOf(list, j) == OpensOf(was, j) {
          OpensRemoved(was, i, j);
        }
      } else {
        list := list[i := Opened(no, list[i].opens - 1)];
        OpensAt(list, i);
        forall j: nat | j != no ensures OpensOf(list, j) == OpensOf(was, j) {
          OpensElsewhere(was, i, list[i], j);
        }
      }
    }
  }
}
