// fs/inode.c: the slots that the file system works with are the bytes of the packed inode table.

module SlotRefinement {
  import opened Disk
  import O = Ownership
  import opened Records
  import opened InodeTable

  /** The record on disk carries the number and the persistent fields. */
  ghost predicate Matches(n: StructInode, r: Record) {
    n.no == r.no && n.size == r.inode.size && n.sectors == r.inode.sectors
  }

  ghost predicate SlotShows(d: seq<Sector>, table: nat, t: InodeSlots, i: nat) {
    Matches(Decode(SlotBytes(d, table, i)), Fetched(t, i))
  }

  /** Every slot of the table on disk holds what the file system takes it to hold. */
  ghost predicate TableShows(d: seq<Sector>, table: nat, t: InodeSlots) {
    forall i: nat :: i < INODES ==> SlotShows(d, table, t, i)
  }

  /** inode_sync on the bytes is Synced on the slots. */
  lemma SyncShows(d: seq<Sector>, e: seq<Sector>, table: nat, t: InodeSlots, n: StructInode, inode: O.Inode)
    requires TableShows(d, table, t) && Fits(n) && Matches(n, Record(n.no, inode))
    requires SlotWritten(d, e, table, n.no % 256, Encode(Pure(n)))
    ensures TableShows(e, table, Synced(t, n.no, inode))
  {
    hide Encode, Decode, SlotBytes, SlotWritten;
    RecordRoundTrip(Pure(n));
    forall i: nat | i < INODES ensures SlotShows(e, table, Synced(t, n.no, inode), i) {
      WrittenSlots(d, e, table, n.no % 256, Encode(Pure(n)), i);
      assert SlotShows(d, table, t, i);
    }
  }

  /** inode_delete on the bytes is Cleared on the slots. */
  lemma DeleteShows(d: seq<Sector>, e: seq<Sector>, table: nat, t: InodeSlots, no: nat)
    requires TableShows(d, table, t) && SlotWritten(d, e, table, no, ZeroSlot())
    ensures TableShows(e, table, Cleared(t, no))
  {
    hide Decode, SlotBytes, SlotWritten;
    ZeroDecodes();
    forall i: nat | i < INODES ensures SlotShows(e, table, Cleared(t, no), i) {
      WrittenSlots(d, e, table, no, ZeroSlot(), i);
      assert SlotShows(d, table, t, i);
    }
  }

  lemma ZeroDecodes()
    ensures Matches(Decode(ZeroSlot()), ZeroRecord())
  {
    hide Word;
    var n := Decode(ZeroSlot());
    ZeroWord(0);
    ZeroWord(4);
    forall k: nat | k < 13 ensures n.sectors[k] == 0 {
      ZeroWord(16 + 4 * k);
    }
    assert n.sectors == ZeroRecord().inode.sectors;
  }

  lemma ZeroWord(at: nat)
    requires at + 4 <= INODE_SIZE
    ensures Word(ZeroSlot(), at) == 0
  {
  }

  /** inode_open of an inode that is not in memory reads the slot's record. */
  method FetchRecord(k: InodeDisk, ghost t: InodeSlots, no: nat) returns (n: StructInode)
    requires k.Valid() && no < INODES && TableShows(k.disk, k.table, t)
    ensures Matches(n, Fetched(t, no))
  {
    n := k.Fetch(no);
    assert SlotShows(k.disk, k.table, t, no);
  }
}
