// device/ide.c: ide_read and ide_write cut a transfer into commands of at most 256 sectors (the sector count register
// has eight bits, and 0 stands for 256: ATA/ATAPI-6, clause 8, READ SECTOR(S) and WRITE SECTOR(S)).

module Ide {
  import opened Disk

  /** What select_sector and cmd_out put into the registers. */
  datatype Command = Command(lba: nat, count: nat)

  /** The sectors a command is for. */
  function Decoded(count: nat): nat {
    if count == 0 then 256 else count
  }

  /** The commands cover `n` sectors from `lba` on, one behind the other. */
  ghost predicate Tiles(cs: seq<Command>, lba: nat, n: nat)
    decreases |cs|
  {
    if cs == [] then n == 0
    else
      var c := cs[|cs| - 1];
      && c.count < 256 && Decoded(c.count) <= n && c.lba == lba + n - Decoded(c.count)
      && Tiles(cs[..|cs| - 1], lba, n - Decoded(c.count))
  }

  /** Every command but the last is for 256 sectors. */
  ghost predicate FullButLast(cs: seq<Command>) {
    forall i: nat :: i + 1 < |cs| ==> cs[i].count == 0
  }

  ghost predicate AllFull(cs: seq<Command>) {
    forall i: nat :: i < |cs| ==> cs[i].count == 0
  }

  lemma NoCommands(lba: nat)
    ensures Tiles([], lba, 0) && AllFull([]) && FullButLast([])
  {
  }

  lemma FullMore(cs: seq<Command>, lba: nat, op: nat)
    requires AllFull(cs) && 1 <= op <= 256
    ensures Decoded(op % 256) == op && FullButLast(cs + [Command(lba, op % 256)])
    ensures op == 256 ==> AllFull(cs + [Command(lba, op % 256)])
  {
  }

  /** So there are no more commands than needed. */
  lemma {:induction false} FewestCommands(cs: seq<Command>, lba: nat, n: nat)
    requires Tiles(cs, lba, n) && FullButLast(cs)
    ensures n <= 256 * |cs| < n + 256
    decreases |cs|
  {
    if cs != [] {
      var k := |cs| - 1;
      FullTiles(cs[..k], lba, n - Decoded(cs[k].count));
    }
  }

  lemma {:induction false} FullTiles(cs: seq<Command>, lba: nat, n: nat)
    requires Tiles(cs, lba, n) && AllFull(cs)
    ensures n == 256 * |cs|
    decreases |cs|
  {
    if cs != [] {
      FullTiles(cs[..|cs| - 1], lba, n - 256);
    }
  }

  lemma TilesMore(cs: seq<Command>, lba: nat, n: nat, m: nat)
    requires Tiles(cs, lba, n) && 1 <= m <= 256
    ensures Tiles(cs + [Command(lba + n, m % 256)], lba, n + m)
  {
    var c := Command(lba + n, m % 256);
    assert (cs + [c])[..|cs|] == cs && Decoded(m % 256) == m;
  }

  /** Every sector of the range is covered by exactly one command. */
  lemma {:induction false} TilesCover(cs: seq<Command>, lba: nat, n: nat, s: nat)
    requires Tiles(cs, lba, n) && lba <= s < lba + n
    ensures exists i: nat :: i < |cs| && Covers(cs[i], s)
    ensures forall i: nat, j: nat :: i < j < |cs| ==> !(Covers(cs[i], s) && Covers(cs[j], s))
    decreases |cs|
  {
    var k := |cs| - 1;
    var c, before := cs[k], n - Decoded(cs[k].count);
    assert Covers(c, s) <==> lba + before <= s;
    forall i: nat | i < k ensures Covers(cs[i], s) ==> s < lba + before {
      TilesBelow(cs[..k], lba, before, i);
      assert cs[..k][i] == cs[i];
    }
    if s < lba + before {
      TilesCover(cs[..k], lba, before, s);
      var i: nat :| i < |cs[..k]| && Covers(cs[..k][i], s);
      assert Covers(cs[i], s);
      forall i: nat, j: nat | i < j < |cs| ensures !(Covers(cs[i], s) && Covers(cs[j], s)) {
        if j < k {
          assert cs[..k][i] == cs[i] && cs[..k][j] == cs[j];
        }
      }
    }
  }

  ghost predicate Covers(c: Command, s: nat) {
    c.lba <= s < c.lba + Decoded(c.count)
  }

  lemma {:induction false} TilesBelow(cs: seq<Command>, lba: nat, n: nat, i: nat)
    requires Tiles(cs, lba, n) && i < |cs|
    ensures cs[i].lba + Decoded(cs[i].count) <= lba + n
    decreases |cs|
  {
    var k := |cs| - 1;
    if i < k {
      TilesBelow(cs[..k], lba, n - Decoded(cs[k].count), i);
    }
  }

  /** The sectors of a disk after `data` was written from `lba` on. */
  function Stored(disk: seq<Sector>, lba: nat, data: seq<Sector>): (d: seq<Sector>)
    requires lba + |data| <= |disk|
    ensures |d| == |disk| && d[lba..lba + |data|] == data
    ensures forall s: nat :: s < |disk| && !(lba <= s < lba + |data|) ==> d[s] == disk[s]
  {
    disk[..lba] + data + disk[lba + |data|..]
  }

  class Channel {
    var disk: seq<Sector>

    constructor (disk: seq<Sector>)
      ensures this.disk == disk
    {
      this.disk := disk;
    }

    /** The drive executes a READ command: it delivers the decoded number of sectors. */
    method DriveRead(c: Command) returns (data: seq<Sector>)
      requires c.lba + Decoded(c.count) <= |disk|
      ensures data == disk[c.lba..c.lba + Decoded(c.count)]
    {
      data := disk[c.lba..c.lba + Decoded(c.count)];
    }

    /** The drive executes a WRITE command: it takes the decoded number of sectors. */
    method DriveWrite(c: Command, data: seq<Sector>)
      requires |data| == Decoded(c.count) && c.lba + |data| <= |disk|
      modifies this
      ensures disk == Stored(old(disk), c.lba, data)
    {
      disk := Stored(disk, c.lba, data);
    }

    /** ide_read */
    method Read(lba: nat, n: nat) returns (data: seq<Sector>, cs: seq<Command>)
      requires 0 < n && lba + n <= |disk|
      ensures data == disk[lba..lba + n] && Tiles(cs, lba, n) && FullButLast(cs)
    {
      hide Tiles, FullButLast, AllFull, Decoded;
      NoCommands(lba);
      data, cs := [], [];
      var done := 0;
      while done < n
        invariant done <= n && data == disk[lba..lba + done] && Tiles(cs, lba, done)
        invariant FullButLast(cs) && (done < n ==> AllFull(cs))
      {
        var op := if done + 256 <= n then 256 else n - done;
        var c := Command(lba + done, op % 256);
        TilesMore(cs, lba, done, op);
        FullMore(cs, c.lba, op);
        var part := DriveRead(c);
        assert disk[lba..lba + done] + disk[lba + done..lba + done + op] == disk[lba..lba + (done + op)];
        data, cs := data + part, cs + [c];
        done := done + op;
      }
    }

    /** ide_write */
    method Write(lba: nat, data: seq<Sector>) returns (cs: seq<Command>)
      requires data != [] && lba + |data| <= |disk|
      modifies this
      ensures disk == Stored(old(disk), lba, data) && Tiles(cs, lba, |data|) && FullButLast(cs)
    {
      hide Tiles, FullButLast, AllFull, Decoded;
      NoCommands(lba);
      cs := [];
      var done := 0;
      assert Stored(disk, lba, data[..0]) == disk;
      while done < |data|
        invariant done <= |data| && disk == Stored(old(disk), lba, data[..done]) && Tiles(cs, lba, done)
        invariant FullButLast(cs) && (done < |data| ==> AllFull(cs))
      {
        var op := if done + 256 <= |data| then 256 else |data| - done;
        var c := Command(lba + done, op % 256);
        TilesMore(cs, lba, done, op);
        FullMore(cs, c.lba, op);
        StoredMore(old(disk), lba, data, done, op);
        DriveWrite(c, data[done..done + op]);
        cs := cs + [c];
        done := done + op;
      }
      assert data[..done] == data;
    }

    /** A write, then a read of the same sectors. */
    method WriteRead(lba: nat, data: seq<Sector>) returns (back: seq<Sector>)
      requires data != [] && lba + |data| <= |disk|
      modifies this
      ensures back == data
    {
      var cs := Write(lba, data);
      back, cs := Read(lba, |data|);
    }
  }

  lemma StoredMore(d: seq<Sector>, lba: nat, data: seq<Sector>, done: nat, op: nat)
    requires lba + |data| <= |d| && done + op <= |data|
    ensures Stored(Stored(d, lba, data[..done]), lba + done, data[done..done + op]) == Stored(d, lba, data[..done + op])
  {
    hide Stored;
    var a, b := Stored(d, lba, data[..done]), Stored(d, lba, data[..done + op]);
    var c := Stored(a, lba + done, data[done..done + op]);
    forall s: nat | s < |d| ensures c[s] == b[s] {
      StoredAt(d, lba, data[..done], s);
      StoredAt(d, lba, data[..done + op], s);
      StoredAt(a, lba + done, data[done..done + op], s);
    }
  }

  lemma StoredAt(d: seq<Sector>, lba: nat, data: seq<Sector>, s: nat)
    requires lba + |data| <= |d| && s < |d|
    ensures Stored(d, lba, data)[s] == if lba <= s < lba + |data| then data[s - lba] else d[s]
  {
  }
}
