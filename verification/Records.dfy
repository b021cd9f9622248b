// fs/inode.c seen from the rest of the file system: what inode_sync leaves in the slots of the inode table, and what
// inode_open reads back.  InodeTable has the same table as bytes.

module Records {
  import opened Ownership

  /** A slot of the inode table: i_no and the persistent fields. */
  datatype Record = Record(no: nat, inode: Inode)

  /** The slots that were ever written; formatting left zeros in all others. */
  type InodeSlots = map<nat, Record>

  /** inode_init */
  function EmptyInode(): Inode {
    Inode(0, seq(13, _ => 0))
  }

  function ZeroRecord(): Record {
    Record(0, EmptyInode())
  }

  /** What inode_open reads for an inode that is not in memory. */
  function Fetched(t: InodeSlots, i: nat): Record {
    if i in t then t[i] else ZeroRecord()
  }

  /** inode_sync: the inode number is narrowed to eight bits on the way to inode_locate. */
  function Synced(t: InodeSlots, i: nat, n: Inode): InodeSlots {
    t[i % 256 := Record(i, n)]
  }

  /** inode_delete: the number is not narrowed here. */
  function Cleared(t: InodeSlots, i: nat): InodeSlots {
    t[i := ZeroRecord()]
  }

  /** What inode_open then finds: the record in memory, or the slot's. */
  function Seen(t: InodeSlots, open: set<nat>, inodes: map<nat, Inode>, i: nat): Record
    requires i in inodes
  {
    if i in open then Record(i, inodes[i]) else Fetched(t, i)
  }

  /** No slot from 256 on has ever been synced. */
  ghost predicate HighZero(t: InodeSlots) {
    forall i: nat :: i >= 256 ==> Fetched(t, i).no != i
  }

  /** inode_sync, then a fetch: the record comes back exactly for the numbers that fit in eight bits. */
  lemma SyncedExactly(t: InodeSlots, i: nat, n: Inode)
    requires HighZero(t)
    ensures Fetched(Synced(t, i, n), i) == Record(i, n) <==> i < 256
    ensures Fetched(Synced(t, i, n), i).no == i <==> i < 256
    ensures HighZero(Synced(t, i, n))
    ensures forall j: nat :: j != i % 256 ==> Fetched(Synced(t, i, n), j) == Fetched(t, j)
  {
    if i >= 256 {
      assert i % 256 != i && Fetched(Synced(t, i, n), i) == Fetched(t, i);
    }
    forall j: nat | j >= 256 ensures Fetched(Synced(t, i, n), j) == Fetched(t, j) {
    }
  }

  lemma ClearedHigh(t: InodeSlots, i: nat)
    requires HighZero(t) && i != 0
    ensures HighZero(Cleared(t, i)) && forall j: nat :: j != i ==> Fetched(Cleared(t, i), j) == Fetched(t, j)
  {
    forall j: nat | j >= 256 ensures Fetched(Cleared(t, i), j).no != j {
      assert Fetched(t, j).no != j;
    }
  }

  /** At number 256: its own slot stays zero, and the root's slot now carries number 256. */
  lemma SyncAt256(t: InodeSlots, n: Inode)
    requires 256 !in t
    ensures Fetched(Synced(t, 256, n), 256) == ZeroRecord() && Fetched(Synced(t, 256, n), 0) == Record(256, n)
  {
  }
}
