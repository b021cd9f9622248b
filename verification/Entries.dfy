// struct dir_entry, and what the 252 entry slots of a directory's twelve direct blocks must look like.

module Entries {
  import opened Disk
  import opened CStrings

  const FT_REGULAR: nat := 1
  const FT_DIRECTORY: nat := 2

  /** 16 bytes of name, the inode number, the file type: kept as the 24 bytes that are copied around. */
  type Entry = e: seq<Byte> | |e| == 24 witness seq(24, _ => 0)

  function Free(): Entry {
    seq(24, _ => 0)
  }

  function Kind(e: Entry): nat {
    Word(e, 20)
  }

  function Target(e: Entry): nat {
    Word(e, 16)
  }

  /** f_type is not FT_UNKNOWN */
  predicate Live(e: Entry) {
    Kind(e) != 0
  }

  function Name(e: Entry): seq<Byte> {
    Text(e[..16])
  }

  /** The live entries in slot order: what repeated dir_read calls yield. */
  function LiveOf(s: seq<Entry>): (r: seq<Entry>)
    ensures |r| <= |s|
  {
    if s == [] then [] else (if Live(s[0]) then [s[0]] else []) + LiveOf(s[1..])
  }

  lemma {:induction false} LiveConcat(s: seq<Entry>, t: seq<Entry>)
    ensures LiveOf(s + t) == LiveOf(s) + LiveOf(t)
  {
    hide Live;
    if s == [] {
      assert s + t == t;
    } else {
      assert (s + t)[1..] == s[1..] + t;
      LiveConcat(s[1..], t);
      var first := if Live(s[0]) then [s[0]] else [];
      assert LiveOf(s) == first + LiveOf(s[1..]) && LiveOf(s + t) == first + LiveOf(s[1..] + t);
      assert first + (LiveOf(s[1..]) + LiveOf(t)) == (first + LiveOf(s[1..])) + LiveOf(t);
    }
  }

  lemma LiveSplit(s: seq<Entry>, p: nat)
    requires p < |s|
    ensures LiveOf(s) == LiveOf(s[..p]) + (if Live(s[p]) then [s[p]] else []) + LiveOf(s[p + 1..])
  {
    hide Live, LiveOf;
    var rest := s[p..];
    assert s == s[..p] + rest && rest[0] == s[p] && rest[1..] == s[p + 1..];
    LiveConcat(s[..p], rest);
    LiveHead(rest);
  }

  lemma LiveHead(s: seq<Entry>)
    requires s != []
    ensures LiveOf(s) == (if Live(s[0]) then [s[0]] else []) + LiveOf(s[1..])
  {
    hide Live;
  }

  /** Rewriting one slot changes the live list only at that place. */
  lemma LivePut(s: seq<Entry>, p: nat, e: Entry)
    requires p < |s|
    ensures LiveOf(s[p := e]) == LiveOf(s[..p]) + (if Live(e) then [e] else []) + LiveOf(s[p + 1..])
    ensures LiveOf(s) == LiveOf(s[..p]) + (if Live(s[p]) then [s[p]] else []) + LiveOf(s[p + 1..])
  {
    hide Live;
    LiveSplit(s, p);
    LiveSplit(s[p := e], p);
    assert s[p := e][..p] == s[..p] && s[p := e][p + 1..] == s[p + 1..];
  }

  lemma {:induction false} LiveMember(s: seq<Entry>, e: Entry)
    ensures e in LiveOf(s) <==> e in s && Live(e)
  {
    hide Live;
    if s != [] {
      LiveMember(s[1..], e);
      assert s == [s[0]] + s[1..];
    }
  }

  lemma {:induction false} NoneLive(s: seq<Entry>)
    requires forall p: nat :: p < |s| ==> !Live(s[p])
    ensures LiveOf(s) == []
  {
    hide Live;
    if s != [] {
      NoneLive(s[1..]);
    }
  }

  // ---------------------------------------------------------------- the table of a directory

  ghost predicate Clean(s: seq<Entry>) {
    forall p: nat :: p < |s| && !Live(s[p]) ==> s[p] == Free()
  }

  ghost predicate NamesOk(s: seq<Entry>) {
    && (forall p: nat :: p < |s| && Live(s[p]) ==> 1 <= |Name(s[p])| <= 15)
    && (forall p: nat, q: nat :: p < q < |s| && Live(s[p]) && Live(s[q]) ==> Name(s[p]) != Name(s[q]))
  }

  ghost predicate TargetsOk(s: seq<Entry>) {
    forall p: nat, q: nat :: 2 <= p < q < |s| && Live(s[p]) && Live(s[q]) ==> Target(s[p]) != Target(s[q])
  }

  /**
   * Free slots are zero, live names are short and distinct, "." and ".." stand in the first two slots, and no two
   * other entries lead to the same inode.
   */
  ghost predicate GoodTable(s: seq<Entry>) {
    && |s| == 252 && Clean(s) && NamesOk(s) && TargetsOk(s)
    && Live(s[0]) && Name(s[0]) == Dot() && Live(s[1]) && Name(s[1]) == DotDot()
  }

  /** An entry that may be added: named, not a dot name, and new to the table. */
  ghost predicate NewEntry(s: seq<Entry>, e: Entry) {
    && Live(e) && 1 <= |Name(e)| <= 15
    && (forall p: nat :: p < |s| && Live(s[p]) ==> Name(s[p]) != Name(e))
    && (forall p: nat :: 2 <= p < |s| && Live(s[p]) ==> Target(s[p]) != Target(e))
  }

  lemma FreeIsFree()
    ensures !Live(Free()) && Name(Free()) == []
  {
    assert Free()[..16][0] == 0;
  }

  lemma GoodInsert(s: seq<Entry>, p: nat, e: Entry)
    requires GoodTable(s) && p < 252 && !Live(s[p]) && NewEntry(s, e)
    ensures GoodTable(s[p := e]) && 2 <= p && |LiveOf(s[p := e])| == |LiveOf(s)| + 1
  {
    hide Live, Name, Target;
    LivePut(s, p, e);
    var t := s[p := e];
    forall i: nat, j: nat | i < j < |t| && Live(t[i]) && Live(t[j]) ensures Name(t[i]) != Name(t[j]) {
      assert i == p || t[i] == s[i];
      assert j == p || t[j] == s[j];
    }
    forall i: nat, j: nat | 2 <= i < j < |t| && Live(t[i]) && Live(t[j]) ensures Target(t[i]) != Target(t[j]) {
      assert i == p || t[i] == s[i];
      assert j == p || t[j] == s[j];
    }
  }

  lemma GoodErase(s: seq<Entry>, p: nat)
    requires GoodTable(s) && 2 <= p < 252 && Live(s[p])
    ensures GoodTable(s[p := Free()]) && |LiveOf(s[p := Free()])| == |LiveOf(s)| - 1
  {
    FreeIsFree();
    hide Live, Name, Target, Free;
    LivePut(s, p, Free());
    var t := s[p := Free()];
    forall i: nat | i < |t| && Live(t[i]) ensures t[i] == s[i] {
    }
  }

  /** Inserting into a free slot and erasing that slot again gives the table back. */
  lemma InsertErase(s: seq<Entry>, p: nat, e: Entry)
    requires GoodTable(s) && p < 252 && !Live(s[p])
    ensures s[p := e][p := Free()] == s
  {
    hide Live, Name, NamesOk, TargetsOk, Free;
    assert s[p] == Free();
  }

  /** Only the two dot entries are live: the size is that of two entries. */
  lemma {:induction false} TwoLive(s: seq<Entry>)
    requires GoodTable(s)
    ensures |LiveOf(s)| >= 2
    ensures |LiveOf(s)| == 2 <==> forall p: nat :: 2 <= p < 252 ==> !Live(s[p])
  {
    hide Live, Name, NamesOk, TargetsOk, Clean, Dot, DotDot;
    LiveSplit(s, 0);
    LiveSplit(s[1..], 0);
    assert s[..0] == [] && s[1..][..0] == [] && s[1..][1..] == s[2..];
    var rest := s[2..];
    if forall p: nat :: 2 <= p < 252 ==> !Live(s[p]) {
      NoneLive(rest);
    } else {
      var p: nat :| 2 <= p < 252 && Live(s[p]);
      assert rest[p - 2] == s[p] && s[p] in rest;
      LiveMember(rest, s[p]);
    }
  }

  /** strncmp sees the same string as Name does, because the NUL is inside the name field. */
  lemma NameText(e: Entry)
    requires |Name(e)| <= 15
    ensures Text(e) == Name(e) && 0 in e
  {
    var n := |Name(e)|;
    assert e[..16][n] == 0 && e[..n] == e[..16][..n];
    TextIs(e, n);
    assert e[n] == 0;
  }

  lemma TextOf(name: seq<Byte>)
    requires 0 !in name
    ensures Text(name + [0]) == name && 0 in name + [0]
  {
    assert (name + [0])[..|name|] == name && (name + [0])[|name|] == 0;
    TextIs(name + [0], |name|);
  }
}
