// lib/string.c: NUL-terminated strings inside byte buffers.

module CStrings {
  import opened Disk

  /** The two names that every directory has. */
  function Dot(): seq<Byte> { [46] }

  function DotDot(): seq<Byte> { [46, 46] }

  /** The string a buffer holds: its bytes before the first NUL. */
  function Text(s: seq<Byte>): (r: seq<Byte>)
    ensures |r| <= |s| && r == s[..|r|] && 0 !in r
    ensures |r| < |s| ==> s[|r|] == 0
  {
    if s == [] || s[0] == 0 then [] else [s[0]] + Text(s[1..])
  }

  /** The bytes before the first NUL are determined by where that NUL is. */
  lemma {:induction false} TextIs(s: seq<Byte>, n: nat)
    requires n <= |s| && 0 !in s[..n] && (n < |s| ==> s[n] == 0)
    ensures Text(s) == s[..n]
  {
    if n == 0 {
      assert s[..n] == [];
    } else {
      assert s[0] == s[..n][0] != 0 && s[1..][..n - 1] == s[..n][1..];
      TextIs(s[1..], n - 1);
      assert s[..n] == [s[0]] + s[1..][..n - 1];
    }
  }

  lemma Terminated(s: seq<Byte>)
    requires 0 in s
    ensures |Text(s)| < |s|
  {
    assert |Text(s)| == |s| ==> Text(s) == s;
  }

  function Signed(b: Byte): int {
    if b < 128 then b else b - 256
  }

  /** strlen */
  method Strlen(s: seq<Byte>) returns (n: nat)
    requires 0 in s
    ensures n == |Text(s)|
  {
    var p := 0;
    ghost var z: nat :| z < |s| && s[z] == 0;
    while s[p] != 0
      invariant p <= z && 0 !in s[..p]
      decreases z - p
    {
      assert s[..p + 1] == s[..p] + [s[p]];
      p := p + 1;
    }
    TextIs(s, p);
    return p;
  }

  /** Two strings agree in k characters of the first, and then part, or the first or the count is at its end. */
  ghost predicate Parts(a: seq<Byte>, b: seq<Byte>, size: nat, k: nat) {
    && k < |a| && k < |b| && k <= size && a[..k] == b[..k] && 0 !in a[..k]
    && (k == size || a[k] == 0 || a[k] != b[k])
  }

  /** The result is the order of the characters at the place where the strings part. */
  ghost predicate Ordered(a: seq<Byte>, b: seq<Byte>, size: nat, r: int) {
    exists k: nat :: Parts(a, b, size, k) && r == Order(a[k], b[k])
  }

  /** -1, 0 or 1, as signed characters compare. */
  function Order(x: Byte, y: Byte): (r: int)
    ensures r == 0 <==> x == y
    ensures x < 128 && y < 128 ==> (r == -1 <==> x < y)
    ensures x < 128 <= y ==> r == 1
    ensures y < 128 <= x ==> r == -1
  {
    if Signed(x) < Signed(y) then -1 else if Signed(x) > Signed(y) then 1 else 0
  }

  /**
   * strncmp.  The loop stops at the end of `a`, at a difference, or after `size` bytes, and the bytes at that
   * place decide: position `size` is compared as well.
   */
  method Strncmp(a: seq<Byte>, b: seq<Byte>, size: nat) returns (r: int)
    requires 0 in a && 0 in b
    ensures var m := if size < |Text(a)| then size else |Text(a)|;
            r == 0 <==> m < |b| && m < |a| && a[..m + 1] == b[..m + 1]
    ensures size >= |Text(a)| || size >= |Text(b)| ==> (r == 0 <==> Text(a) == Text(b))
    ensures Ordered(a, b, size, r)
  {
    ghost var m := if size < |Text(a)| then size else |Text(a)|;
    Terminated(a);
    Terminated(b);
    var k := 0;
    while k < size && a[k] != 0 && a[k] == b[k]
      invariant k <= m && k <= |Text(b)| && a[..k] == b[..k]
      decreases size - k
    {
      assert a[..k + 1] == a[..k] + [a[k]] && b[..k + 1] == b[..k] + [b[k]];
      assert k != |Text(a)| && k != |Text(b)|;
      k := k + 1;
    }
    StopsAt(a, b, size, k);
    assert Parts(a, b, size, k);
    return if Signed(a[k]) < Signed(b[k]) then -1 else if Signed(a[k]) > Signed(b[k]) then 1 else 0;
  }

  /** Where the loop of strncmp stops, the bytes there are equal exactly when the compared stretch is. */
  lemma StopsAt(a: seq<Byte>, b: seq<Byte>, size: nat, k: nat)
    requires |Text(a)| < |a| && |Text(b)| < |b| && k <= |Text(b)| && k <= |Text(a)| && k <= size && a[..k] == b[..k]
    requires k == size || a[k] == 0 || a[k] != b[k]
    ensures var m := if size < |Text(a)| then size else |Text(a)|;
            a[k] == b[k] <==> m < |b| && a[..m + 1] == b[..m + 1]
    ensures size >= |Text(a)| || size >= |Text(b)| ==> (a[k] == b[k] <==> Text(a) == Text(b))
  {
    hide Text;
    EndsAt(a, k);
    StopsPrefix(a, b, |Text(a)|, size, k);
    StopsText(a, b, size, k);
  }

  lemma StopsPrefix(a: seq<Byte>, b: seq<Byte>, end: nat, size: nat, k: nat)
    requires k <= end < |a| && k < |b| && k <= size && a[..k] == b[..k] && (a[k] == 0 <==> k == end)
    requires k == size || a[k] == 0 || a[k] != b[k]
    ensures var m := if size < end then size else end;
            a[k] == b[k] <==> m < |b| && a[..m + 1] == b[..m + 1]
  {
    var m := if size < end then size else end;
    if a[k] == b[k] {
      assert k == m;
      assert a[..k + 1] == a[..k] + [a[k]] && b[..k + 1] == b[..k] + [b[k]];
    } else if m < |b| {
      DifferentPrefixes(a, b, k, m + 1);
    }
  }

  lemma StopsText(a: seq<Byte>, b: seq<Byte>, size: nat, k: nat)
    requires |Text(a)| < |a| && |Text(b)| < |b| && k <= |Text(b)| && k <= |Text(a)| && k <= size && a[..k] == b[..k]
    requires k == size || a[k] == 0 || a[k] != b[k]
    ensures size >= |Text(a)| || size >= |Text(b)| ==> (a[k] == b[k] <==> Text(a) == Text(b))
  {
    hide Text;
    EndsAt(a, k);
    EndsAt(b, k);
    if a[k] != b[k] && k < |Text(a)| && k < |Text(b)| {
      assert Text(a)[k] == a[k] && Text(b)[k] == b[k];
    }
  }

  lemma EndsAt(a: seq<Byte>, k: nat)
    requires k <= |Text(a)| < |a|
    ensures a[k] == 0 <==> k == |Text(a)|
  {
    hide Text;
    assert k < |Text(a)| ==> Text(a)[k] == a[k];
  }

  lemma DifferentPrefixes(a: seq<Byte>, b: seq<Byte>, k: nat, n: nat)
    requires k < n <= |a| && n <= |b| && a[k] != b[k]
    ensures a[..n] != b[..n]
  {
    assert a[..n][k] == a[k] && b[..n][k] == b[k];
  }
}
