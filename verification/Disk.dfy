// Sectors of 512 bytes and the 32-bit little-endian words that block tables and inodes are made of.

module Disk {

  type Byte = b: int | 0 <= b < 256

  type Sector = s: seq<Byte> | |s| == 512 witness seq(512, _ => 0)

  function ZeroSector(): Sector {
    seq(512, _ => 0)
  }

  /** The little-endian word of four bytes. */
  function WordOf(b0: Byte, b1: Byte, b2: Byte, b3: Byte): (w: nat)
    ensures w < 0x1_0000_0000
  {
    b0 + 0x100 * b1 + 0x1_0000 * b2 + 0x100_0000 * b3
  }

  /** Byte i (0 to 3) of a word. */
  function ByteOf(w: nat, i: nat): Byte
    requires i < 4
  {
    if i == 0 then w % 0x100
    else if i == 1 then w / 0x100 % 0x100
    else if i == 2 then w / 0x1_0000 % 0x100
    else w / 0x100_0000 % 0x100
  }

  lemma WordRoundTrip(w: nat)
    requires w < 0x1_0000_0000
    ensures WordOf(ByteOf(w, 0), ByteOf(w, 1), ByteOf(w, 2), ByteOf(w, 3)) == w
  {
    Quarters(w);
  }

  lemma Quarters(w: nat)
    requires w < 0x1_0000_0000
    ensures w == w % 0x100 + 0x100 * (w / 0x100 % 0x100) + 0x1_0000 * (w / 0x1_0000 % 0x100)
                 + 0x100_0000 * (w / 0x100_0000 % 0x100)
  {
    var a, b, c := w / 0x100, w / 0x1_0000, w / 0x100_0000;
    assert w == 0x100 * a + w % 0x100;
    assert a == 0x100 * b + a % 0x100;
    assert b == 0x100 * c + b % 0x100;
    assert c % 0x100 == c;
  }

  function Word(s: seq<Byte>, at: nat): (w: nat)
    requires at + 4 <= |s|
    ensures w < 0x1_0000_0000
  {
    WordOf(s[at], s[at + 1], s[at + 2], s[at + 3])
  }

  /** The number that four bytes stand for, lowest byte first. */
  function Little(s: seq<Byte>, at: nat): int
    requires at + 4 <= |s|
  {
    var high: int := s[at + 3];
    var third: int := s[at + 2];
    var second: int := s[at + 1];
    ((high * 256 + third) * 256 + second) * 256 + s[at]
  }

  /** A sector read as a table of 128 words. */
  function Words(s: Sector): (ws: seq<nat>)
    ensures |ws| == 128
  {
    seq(128, k requires 0 <= k < 128 => Word(s, 4 * k))
  }

  /** A table of 128 words laid out as a sector. */
  function Unwords(ws: seq<nat>): (s: Sector)
    requires |ws| == 128
  {
    seq(512, i requires 0 <= i < 512 => ByteOf(ws[i / 4], i % 4))
  }

  lemma TableRoundTrip(ws: seq<nat>)
    requires |ws| == 128 && forall k :: 0 <= k < 128 ==> ws[k] < 0x1_0000_0000
    ensures Words(Unwords(ws)) == ws
  {
    forall k | 0 <= k < 128 ensures Words(Unwords(ws))[k] == ws[k] {
      assert (4 * k) / 4 == k && (4 * k + 1) / 4 == k && (4 * k + 2) / 4 == k && (4 * k + 3) / 4 == k;
      assert (4 * k) % 4 == 0 && (4 * k + 1) % 4 == 1 && (4 * k + 2) % 4 == 2 && (4 * k + 3) % 4 == 3;
      WordRoundTrip(ws[k]);
    }
  }

  /** memcpy of `src` over `dst` from offset `at` on */
  function Splice(dst: seq<Byte>, at: nat, src: seq<Byte>): (r: seq<Byte>)
    requires at + |src| <= |dst|
    ensures |r| == |dst|
    ensures forall i :: 0 <= i < |dst| ==> r[i] == if at <= i < at + |src| then src[i - at] else dst[i]
  {
    dst[..at] + src + dst[at + |src|..]
  }
}
