// fs/fs.c path_parse and shell/buildin_cmd.c wash_path: C-string loops that are operations on lists of components.

module Paths {
  import opened Disk
  import opened CStrings

  function Slash(): Byte { 47 }

  // ---------------------------------------------------------------- components

  function DropSlashes(p: seq<Byte>): (q: seq<Byte>)
    ensures |q| <= |p| && (q != [] ==> q[0] != Slash())
  {
    if p == [] || p[0] != Slash() then p else DropSlashes(p[1..])
  }

  /** The characters before the next slash. */
  function TakeName(p: seq<Byte>): (n: seq<Byte>)
    ensures |n| <= |p| && (p != [] && p[0] != Slash() ==> n != [])
  {
    if p == [] || p[0] == Slash() then [] else [p[0]] + TakeName(p[1..])
  }

  lemma {:induction false} DropSub(p: seq<Byte>)
    requires 0 !in p
    ensures 0 !in DropSlashes(p)
  {
    if p != [] && p[0] == Slash() {
      DropSub(p[1..]);
    }
  }

  lemma {:induction false} TakeSub(p: seq<Byte>)
    ensures Slash() !in TakeName(p) && (0 !in p ==> 0 !in TakeName(p))
  {
    if p != [] && p[0] != Slash() {
      TakeSub(p[1..]);
    }
  }

  /** The names in a path, empty ones left out. */
  function Components(p: seq<Byte>): seq<seq<Byte>>
    decreases |p|
  {
    var q := DropSlashes(p);
    if q == [] then [] else [TakeName(q)] + Components(q[|TakeName(q)|..])
  }

  /** A path: no NUL inside. */
  predicate Plain(p: seq<Byte>) {
    0 !in p
  }

  /** Where the rest of the path is, or nothing: path_parse returns NULL at the end of the string. */
  datatype Rest = NoMore | From(path: seq<Byte>)

  /** path_parse on a name buffer that was cleared before. */
  method PathParse(p: seq<Byte>) returns (name: seq<Byte>, rest: Rest)
    ensures var q := DropSlashes(p);
            && name == TakeName(q) && rest == if |name| == |q| then NoMore else From(q[|name|..])
  {
    hide DropSlashes, TakeName;
    var q := SkipSlashes(p);
    name, rest := ReadName(q);
  }

  method SkipSlashes(p: seq<Byte>) returns (q: seq<Byte>)
    ensures q == DropSlashes(p)
  {
    q := p;
    if q != [] && q[0] == Slash() {
      q := q[1..];
      while q != [] && q[0] == Slash()
        invariant DropSlashes(q) == DropSlashes(p)
        decreases |q|
      {
        q := q[1..];
      }
    }
  }

  method ReadName(p: seq<Byte>) returns (name: seq<Byte>, rest: Rest)
    ensures name == TakeName(p) && rest == if |name| == |p| then NoMore else From(p[|name|..])
  {
    var q := p;
    name := [];
    while q != [] && q[0] != Slash()
      invariant name + TakeName(q) == TakeName(p) && p == name + q
      decreases |q|
    {
      NameOne(name, q);
      name := name + [q[0]];
      q := q[1..];
    }
    assert name + [] == name;
    rest := if q == [] then NoMore else From(q);
  }

  lemma NameOne(name: seq<Byte>, q: seq<Byte>)
    requires q != [] && q[0] != Slash()
    ensures name + TakeName(q) == (name + [q[0]]) + TakeName(q[1..]) && name + q == (name + [q[0]]) + q[1..]
  {
    NameHead(q);
    hide TakeName;
    assert q == [q[0]] + q[1..];
    Assoc(name, q[0], TakeName(q[1..]));
    Assoc(name, q[0], q[1..]);
  }

  lemma NameHead(q: seq<Byte>)
    requires q != [] && q[0] != Slash()
    ensures TakeName(q) == [q[0]] + TakeName(q[1..])
  {
  }

  lemma Assoc(a: seq<Byte>, b: Byte, c: seq<Byte>)
    ensures a + ([b] + c) == (a + [b]) + c
  {
  }

  /** What one call of path_parse does to the list of components. */
  lemma ParseStep(p: seq<Byte>)
    ensures var q := DropSlashes(p); var name := TakeName(q);
            Components(p) == (if name == [] then [] else [name] + Components(q[|name|..]))
            && (name != [] && |name| == |q| ==> |Components(p)| == 1)
    ensures var q := DropSlashes(p); TakeName(q) == [] ==> q == []
  {
  }

  // ---------------------------------------------------------------- the stack

  /** One component: "." stays, ".." goes up, anything else goes down. */
  function Step(stack: seq<seq<Byte>>, c: seq<Byte>): seq<seq<Byte>> {
    if c == DotDot() then if stack == [] then [] else stack[..|stack| - 1]
    else if c == Dot() then stack
    else stack + [c]
  }

  function Fold(stack: seq<seq<Byte>>, cs: seq<seq<Byte>>): seq<seq<Byte>>
    decreases |cs|
  {
    if cs == [] then stack else Fold(Step(stack, cs[0]), cs[1..])
  }

  /** The absolute path of a stack of names. */
  function Render(stack: seq<seq<Byte>>): (s: seq<Byte>)
    ensures s != [] && s[0] == Slash()
  {
    if stack == [] then [Slash()] else Prefix(stack)
  }

  function Prefix(stack: seq<seq<Byte>>): (s: seq<Byte>)
    ensures (stack == [] <==> s == []) && (s != [] ==> s[0] == Slash())
  {
    if stack == [] then [] else Prefix(stack[..|stack| - 1]) + [Slash()] + stack[|stack| - 1]
  }

  /** A name as path_parse yields it. */
  predicate IsName(c: seq<Byte>) {
    c != [] && Slash() !in c && 0 !in c
  }

  predicate AllNames(cs: seq<seq<Byte>>) {
    forall i :: 0 <= i < |cs| ==> IsName(cs[i])
  }

  lemma {:induction false} ComponentsAreNames(p: seq<Byte>)
    requires Plain(p)
    ensures AllNames(Components(p))
    decreases |p|
  {
    hide DropSlashes, TakeName, Components;
    ParseStep(p);
    var q := DropSlashes(p);
    var name := TakeName(q);
    if name != [] {
      ParsePlain(p);
      ComponentsAreNames(q[|name|..]);
      NamePlain(p);
      TakeSub(q);
    }
  }

  lemma NamePlain(p: seq<Byte>)
    requires Plain(p)
    ensures 0 !in TakeName(DropSlashes(p))
  {
    DropSub(p);
    TakeSub(DropSlashes(p));
  }

  // ---------------------------------------------------------------- strrchr

  /** Position of the last slash. */
  function LastSlash(s: seq<Byte>): (i: nat)
    requires Slash() in s
    ensures i < |s| && s[i] == Slash() && Slash() !in s[i + 1..]
  {
    if s[|s| - 1] == Slash() then |s| - 1
    else
      assert s == s[..|s| - 1] + [s[|s| - 1]];
      LastSlash(s[..|s| - 1])
  }

  lemma LastSlashIs(s: seq<Byte>, i: nat)
    requires i < |s| && s[i] == Slash() && Slash() !in s[i + 1..]
    ensures Slash() in s && LastSlash(s) == i
  {
    hide LastSlash;
    OneLast(s, i, LastSlash(s));
  }

  lemma OneLast(s: seq<Byte>, i: nat, k: nat)
    requires i < |s| && s[i] == Slash() && Slash() !in s[i + 1..]
    requires k < |s| && s[k] == Slash() && Slash() !in s[k + 1..]
    ensures i == k
  {
    if i < k {
      NoSlashAfter(s, i, k);
    } else if k < i {
      NoSlashAfter(s, k, i);
    }
  }

  lemma NoSlashAfter(s: seq<Byte>, i: nat, k: nat)
    requires i < k < |s| && Slash() !in s[i + 1..]
    ensures s[k] != Slash()
  {
    assert s[i + 1..][k - i - 1] == s[k];
  }

  /** strrchr(s, '/') */
  method Strrchr(s: seq<Byte>) returns (i: nat)
    requires Slash() in s
    ensures i == LastSlash(s)
  {
    i := |s|;
    var k := 0;
    while k < |s|
      invariant k <= |s| && i <= |s| && (i == |s| ==> Slash() !in s[..k])
      invariant (i < |s| ==> i < k && s[i] == Slash() && Slash() !in s[i + 1..k])
    {
      assert s[..k + 1] == s[..k] + [s[k]];
      if s[k] == Slash() {
        i := k;
      } else if i < |s| {
        assert s[i + 1..k + 1] == s[i + 1..k] + [s[k]];
      }
      k := k + 1;
    }
    assert k == |s| && s[..k] == s;
    assert i < |s|;
    assert s[i + 1..k] == s[i + 1..];
    LastSlashIs(s, i);
  }

  // ---------------------------------------------------------------- wash_path

  /** Cutting the last name off a rendered path. */
  lemma CutLast(stack: seq<seq<Byte>>)
    requires AllNames(stack)
    ensures Slash() in Render(stack)
    ensures var s := Render(stack); var i := LastSlash(s);
            (if i != 0 then s[..i] else s[..1]) == Render(Step(stack, DotDot()))
  {
    hide LastSlash;
    var s := Render(stack);
    if stack == [] {
      LastSlashIs(s, 0);
    } else {
      var n := |stack| - 1;
      var up := Prefix(stack[..n]);
      assert s == up + [Slash()] + stack[n];
      assert s[|up| + 1..] == stack[n] && s[|up|] == Slash();
      assert IsName(stack[n]);
      LastSlashIs(s, |up|);
      assert s[..|up|] == up;
    }
  }

  /** Appending a name to a rendered path, with a slash unless the path is "/". */
  lemma AppendName(stack: seq<seq<Byte>>, c: seq<Byte>)
    requires AllNames(stack) && IsName(c) && c != Dot() && c != DotDot()
    ensures var s := Render(stack);
            (if s == [Slash()] then s + c else s + [Slash()] + c) == Render(Step(stack, c))
  {
    var s := Render(stack);
    assert (stack + [c])[..|stack|] == stack;
    if stack != [] {
      LongPrefix(stack);
    } else {
      assert Prefix([]) + [Slash()] + c == [Slash()] + c;
    }
  }

  lemma LongPrefix(stack: seq<seq<Byte>>)
    requires stack != [] && AllNames(stack)
    ensures |Prefix(stack)| > 1
  {
    assert IsName(stack[|stack| - 1]);
  }

  lemma StepNames(stack: seq<seq<Byte>>, c: seq<Byte>)
    requires AllNames(stack) && IsName(c)
    ensures AllNames(Step(stack, c))
  {
  }

  /** The body of the loop of wash_path. */
  method WashStep(now: seq<Byte>, name: seq<Byte>, ghost stack: seq<seq<Byte>>) returns (s: seq<Byte>)
    requires AllNames(stack) && now == Render(stack) && IsName(name) && 0 !in now
    ensures s == Render(Step(stack, name)) && AllNames(Step(stack, name)) && 0 !in s
  {
    hide Render, LastSlash, Prefix, AllNames, Ordered;
    StepNames(stack, name);
    BufferText(name);
    BufferText(now);
    BufferText(DotDot());
    BufferText(Dot());
    BufferText([Slash()]);
    var up := Strncmp(DotDot() + [0], name + [0], 2);
    if up == 0 {
      CutLast(stack);
      var i := Strrchr(now);
      s := if i != 0 then now[..i] else now[..1];
    } else {
      var here := Strncmp(Dot() + [0], name + [0], 1);
      s := now;
      if here != 0 {
        AppendName(stack, name);
        var root := Strncmp(now + [0], [Slash()] + [0], 1);
        if root != 0 {
          s := s + [Slash()];
        }
        s := s + name;
      }
    }
  }

  lemma BufferText(s: seq<Byte>)
    requires 0 !in s
    ensures Text(s + [0]) == s && 0 in s + [0]
  {
    assert (s + [0])[..|s|] == s && (s + [0])[|s|] == 0;
    TextIs(s + [0], |s|);
  }

  /** Names that fit in a buffer of 16 bytes with their NUL. */
  ghost predicate ShortNames(cs: seq<seq<Byte>>) {
    forall i :: 0 <= i < |cs| ==> |cs[i]| <= 15
  }

  lemma ShortStep(cs: seq<seq<Byte>>)
    requires cs != []
    ensures ShortNames(cs) <==> |cs[0]| <= 15 && ShortNames(cs[1..])
  {
    forall i | ShortNames(cs[1..]) && 1 <= i < |cs| ensures |cs[i]| <= 15 {
      assert cs[1..][i - 1] == cs[i];
    }
  }

  /**
   * wash_path equals the stack fold over the components of the path.  It fails exactly when a name does not fit in its
   * buffer of 16 bytes, which the source runs over.
   */
  method WashPath(p: seq<Byte>) returns (fits: bool, s: seq<Byte>)
    requires p != [] && p[0] == Slash() && Plain(p)
    ensures fits <==> ShortNames(Components(p))
    ensures fits ==> s == Wash(p)
  {
    hide Components, DropSlashes, TakeName, Render, AllNames, Step, Plain, ShortNames;
    ComponentsAreNames(p);
    ParseStep(p);
    ParsePlain(p);
    NoNames();
    var name, rest := PathParse(p);
    RenderEmpty();
    if name == [] {
      return true, [Slash()];
    }
    s := [Slash()];
    ghost var stack, left: seq<seq<Byte>> := [], Components(p);
    while name != []
      invariant AllNames(stack) && AllNames(left) && s == Render(stack) && 0 !in s
      invariant Fold(stack, left) == Fold([], Components(p))
      invariant (name == [] <==> left == []) && (name != [] ==> left[0] == name)
      invariant name != [] ==>
                  match rest
                  case NoMore => |left| == 1
                  case From(q) => left == [name] + Components(q) && Plain(q)
      invariant ShortNames(Components(p)) <==> ShortNames(left)
      decreases |left|
    {
      FirstName(left);
      ShortStep(left);
      if |name| >= 16 {
        return false, [];
      }
      s := WashStep(s, name, stack);
      stack := Step(stack, name);
      left := left[1..];
      match rest
      case NoMore =>
        name := [];
      case From(q) =>
        assert left == Components(q);
        ParseStep(q);
        ParsePlain(q);
        name, rest := PathParse(q);
    }
    return true, s;
  }

  lemma NoNames()
    ensures AllNames([]) && ShortNames([])
  {
  }

  lemma FirstName(cs: seq<seq<Byte>>)
    requires AllNames(cs) && cs != []
    ensures IsName(cs[0]) && AllNames(cs[1..])
  {
  }

  lemma RenderEmpty()
    ensures Render([]) == [Slash()]
  {
  }

  lemma ParsePlain(p: seq<Byte>)
    requires Plain(p)
    ensures var q := DropSlashes(p); Plain(q[|TakeName(q)|..])
  {
    DropSub(p);
  }

  function Wash(p: seq<Byte>): seq<Byte> {
    Render(Fold([], Components(p)))
  }

  // ---------------------------------------------------------------- what a washed path is

  lemma {:induction false} FoldNames(stack: seq<seq<Byte>>, cs: seq<seq<Byte>>)
    requires AllNames(stack) && AllNames(cs) && NoDots(stack)
    ensures AllNames(Fold(stack, cs)) && NoDots(Fold(stack, cs))
    decreases |cs|
  {
    if cs != [] {
      StepNames(stack, cs[0]);
      FoldNames(Step(stack, cs[0]), cs[1..]);
    }
  }

  ghost predicate NoDots(cs: seq<seq<Byte>>) {
    forall i :: 0 <= i < |cs| ==> cs[i] != Dot() && cs[i] != DotDot()
  }

  /** Names without dots fold to themselves. */
  lemma {:induction false} FoldPlain(stack: seq<seq<Byte>>, cs: seq<seq<Byte>>)
    requires NoDots(cs)
    ensures Fold(stack, cs) == stack + cs
    decreases |cs|
  {
    if cs == [] {
      assert stack + cs == stack;
    } else {
      FoldPlain(stack + [cs[0]], cs[1..]);
      assert stack + [cs[0]] + cs[1..] == stack + cs;
    }
  }

  /** Splitting a rendered path gives the names back. */
  lemma {:induction false} ComponentsOfPrefix(cs: seq<seq<Byte>>, tail: seq<Byte>)
    requires AllNames(cs) && (tail == [] || tail[0] == Slash())
    ensures Components(Prefix(cs) + tail) == cs + Components(tail)
    decreases |cs|
  {
    hide Components, Prefix, AllNames;
    if cs == [] {
      PrefixNil();
      assert [] + tail == tail && cs + Components(tail) == Components(tail);
    } else {
      var n := |cs| - 1;
      PrefixLast(cs);
      var last := [Slash()] + cs[n] + tail;
      assert Prefix(cs) + tail == Prefix(cs[..n]) + last;
      LastIsName(cs);
      ComponentsOfPrefix(cs[..n], last);
      OneComponent(cs[n], tail);
      assert cs[..n] + ([cs[n]] + Components(tail)) == cs + Components(tail);
    }
  }

  lemma PrefixNil()
    ensures Prefix([]) == []
  {
  }

  lemma PrefixLast(cs: seq<seq<Byte>>)
    requires cs != []
    ensures Prefix(cs) == Prefix(cs[..|cs| - 1]) + [Slash()] + cs[|cs| - 1]
  {
  }

  lemma LastIsName(cs: seq<seq<Byte>>)
    requires AllNames(cs) && cs != []
    ensures IsName(cs[|cs| - 1]) && AllNames(cs[..|cs| - 1])
  {
  }

  lemma OneComponent(name: seq<Byte>, tail: seq<Byte>)
    requires IsName(name) && (tail == [] || tail[0] == Slash())
    ensures Components([Slash()] + name + tail) == [name] + Components(tail)
  {
    hide Components;
    assert name[0] in name;
    SlashFirst(name + tail);
    NameFirst(name, tail);
    assert [Slash()] + name + tail == [Slash()] + (name + tail);
  }

  lemma {:induction false} TakeWhole(name: seq<Byte>, tail: seq<Byte>)
    requires Slash() !in name && (tail == [] || tail[0] == Slash())
    ensures TakeName(name + tail) == name
  {
    if name == [] {
      assert name + tail == tail;
    } else {
      assert (name + tail)[0] == name[0] && (name + tail)[1..] == name[1..] + tail;
      TakeWhole(name[1..], tail);
    }
  }

  lemma ComponentsOfRender(cs: seq<seq<Byte>>)
    requires AllNames(cs)
    ensures Components(Render(cs)) == cs
  {
    hide Components, Prefix, AllNames;
    ComponentsNil();
    if cs == [] {
      ComponentsSlash();
    } else {
      ComponentsOfPrefix(cs, []);
      assert Prefix(cs) + [] == Prefix(cs) && cs + [] == cs;
    }
  }

  lemma ComponentsNil()
    ensures Components([]) == []
  {
  }

  lemma ComponentsSlash()
    ensures Components([Slash()]) == []
  {
    assert DropSlashes([Slash()]) == [];
  }

  /**
   * A washed path has exactly the names that the fold left: no "." and no "..", no empty name between two slashes, and
   * it is the rendering of its own components.
   */
  lemma WashedNames(p: seq<Byte>)
    requires Plain(p)
    ensures var cs := Components(Wash(p));
            cs == Fold([], Components(p)) && AllNames(cs) && NoDots(cs) && Wash(p) == Render(cs)
  {
    hide Components, Render, Fold, AllNames, NoDots;
    ComponentsAreNames(p);
    NoNames();
    NoDotsNil();
    FoldNames([], Components(p));
    ComponentsOfRender(Fold([], Components(p)));
  }

  lemma NoDotsNil()
    ensures NoDots([])
  {
  }

  /** Washing twice is washing once. */
  lemma WashTwice(p: seq<Byte>)
    requires Plain(p)
    ensures Wash(Wash(p)) == Wash(p)
  {
    hide Components, Render, Fold, AllNames, NoDots;
    WashedNames(p);
    FoldPlain([], Components(Wash(p)));
    assert [] + Components(Wash(p)) == Components(Wash(p));
  }

  /** ".." at the root stays at the root. */
  lemma {:induction false} RootStays(n: nat)
    ensures Fold([], seq(n, _ => DotDot())) == []
    decreases n
  {
    if n > 0 {
      assert seq(n, _ => DotDot())[1..] == seq(n - 1, _ => DotDot());
      RootStays(n - 1);
    }
  }

  // ---------------------------------------------------------------- what washing means for a path

  /** A slash in front of a path, or one more between two parts, changes no name. */
  lemma SlashFirst(p: seq<Byte>)
    ensures Components([Slash()] + p) == Components(p)
  {
    hide TakeName;
    assert ([Slash()] + p)[1..] == p;
    assert DropSlashes([Slash()] + p) == DropSlashes(p);
  }

  lemma NameFirst(name: seq<Byte>, tail: seq<Byte>)
    requires name != [] && Slash() !in name && (tail == [] || tail[0] == Slash())
    ensures Components(name + tail) == [name] + Components(tail)
  {
    assert name[0] in name && (name + tail)[0] == name[0];
    assert DropSlashes(name + tail) == name + tail;
    hide DropSlashes;
    TakeWhole(name, tail);
    assert (name + tail)[|name|..] == tail;
  }

  lemma {:induction false} TakeStops(p: seq<Byte>)
    ensures p == TakeName(p) + p[|TakeName(p)|..]
    ensures var rest := p[|TakeName(p)|..]; rest == [] || rest[0] == Slash()
  {
    if p != [] && p[0] != Slash() {
      TakeStops(p[1..]);
      assert p == [p[0]] + p[1..];
      assert p[|TakeName(p)|..] == p[1..][|TakeName(p[1..])|..];
    }
  }

  /** The names of a path are the names of its parts. */
  lemma {:induction false} ComponentsSplit(p: seq<Byte>, tail: seq<Byte>)
    requires tail == [] || tail[0] == Slash()
    ensures Components(p + tail) == Components(p) + Components(tail)
    decreases |p|
  {
    hide Components, TakeName;
    if p == [] {
      ComponentsNil();
      assert p + tail == tail && [] + Components(tail) == Components(tail);
    } else if p[0] == Slash() {
      ComponentsSplit(p[1..], tail);
      SlashFirst(p[1..]);
      SlashFirst(p[1..] + tail);
      assert [Slash()] + p[1..] == p && [Slash()] + (p[1..] + tail) == p + tail;
    } else {
      var name := TakeName(p);
      TakeStops(p);
      TakeSub(p);
      var rest := p[|name|..];
      ComponentsSplit(rest, tail);
      NameFirst(name, rest);
      NameFirst(name, rest + tail);
      assert name + (rest + tail) == p + tail;
      assert [name] + (Components(rest) + Components(tail)) == [name] + Components(rest) + Components(tail);
    }
  }

  lemma {:induction false} FoldSplit(stack: seq<seq<Byte>>, a: seq<seq<Byte>>, b: seq<seq<Byte>>)
    ensures Fold(stack, a + b) == Fold(Fold(stack, a), b)
    decreases |a|
  {
    hide Step;
    if a == [] {
      assert a + b == b;
    } else {
      assert (a + b)[0] == a[0] && (a + b)[1..] == a[1..] + b;
      FoldSplit(Step(stack, a[0]), a[1..], b);
    }
  }

  /** The names without the single dots. */
  function DotFree(cs: seq<seq<Byte>>): (r: seq<seq<Byte>>)
    ensures Dot() !in r && forall c :: c in r ==> c in cs
    decreases |cs|
  {
    if cs == [] then [] else (if cs[0] == Dot() then [] else [cs[0]]) + DotFree(cs[1..])
  }

  lemma {:induction false} FoldDotFree(stack: seq<seq<Byte>>, cs: seq<seq<Byte>>)
    ensures Fold(stack, cs) == Fold(stack, DotFree(cs))
    decreases |cs|
  {
    if cs != [] {
      FoldDotFree(Step(stack, cs[0]), cs[1..]);
      var rest := DotFree(cs[1..]);
      assert ([cs[0]] + rest)[1..] == rest;
      assert [] + rest == rest;
    }
  }

  lemma FoldUp(stack: seq<seq<Byte>>, name: seq<Byte>)
    requires name != Dot() && name != DotDot()
    ensures Fold(stack, [name, DotDot()]) == stack
  {
    var one := stack + [name];
    assert [name, DotDot()][1..] == [DotDot()] && [DotDot()][1..] == [];
    assert Fold(stack, [name, DotDot()]) == Fold(one, [DotDot()]) == Fold(one[..|one| - 1], []);
    assert one[..|one| - 1] == stack;
  }

  lemma FoldOne(stack: seq<seq<Byte>>, c: seq<Byte>)
    ensures Fold(stack, [c]) == Step(stack, c)
  {
    hide Step;
    assert [c][1..] == [];
    assert Fold(Step(stack, c), []) == Step(stack, c);
  }

  /** Dots in a path do not matter: only the other names do, in their order. */
  lemma WashDotFree(p: seq<Byte>)
    ensures Wash(p) == Render(Fold([], DotFree(Components(p))))
  {
    hide Components, Render, Fold;
    FoldDotFree([], Components(p));
  }

  /** A path of names alone, however many slashes it has, becomes the rendering of those names. */
  lemma WashPlain(p: seq<Byte>)
    requires NoDots(Components(p))
    ensures Wash(p) == Render(Components(p))
  {
    hide Components, Render, Fold;
    FoldPlain([], Components(p));
    assert [] + Components(p) == Components(p);
  }

  /** "/." anywhere in a path changes nothing. */
  lemma WashDot(p: seq<Byte>, tail: seq<Byte>)
    requires tail == [] || tail[0] == Slash()
    ensures Wash(p + ([Slash()] + Dot() + tail)) == Wash(p + tail)
  {
    hide Components, Render, Fold, DotFree;
    var cs, ts := Components(p), Components(tail);
    ComponentsSplit(p, [Slash()] + Dot() + tail);
    ComponentsSplit(p, tail);
    OneComponent(Dot(), tail);
    FoldSplit([], cs, [Dot()] + ts);
    FoldSplit([], cs, ts);
    FoldSplit(Fold([], cs), [Dot()], ts);
    FoldOne(Fold([], cs), Dot());
  }

  /** A name followed by ".." cancels, wherever it stands. */
  lemma WashUp(p: seq<Byte>, name: seq<Byte>, tail: seq<Byte>)
    requires IsName(name) && name != Dot() && name != DotDot() && (tail == [] || tail[0] == Slash())
    ensures Wash(p + ([Slash()] + name + ([Slash()] + DotDot() + tail))) == Wash(p + tail)
  {
    hide Components, Render, Fold;
    var cs, ts, up := Components(p), Components(tail), [Slash()] + DotDot() + tail;
    ComponentsSplit(p, [Slash()] + name + up);
    ComponentsSplit(p, tail);
    OneComponent(name, up);
    OneComponent(DotDot(), tail);
    assert [name] + ([DotDot()] + ts) == [name, DotDot()] + ts;
    FoldSplit([], cs, [name, DotDot()] + ts);
    FoldSplit([], cs, ts);
    FoldSplit(Fold([], cs), [name, DotDot()], ts);
    FoldUp(Fold([], cs), name);
  }

  /** ".." in front of everything goes nowhere. */
  lemma WashRoot(tail: seq<Byte>)
    requires tail == [] || tail[0] == Slash()
    ensures Wash([Slash()] + DotDot() + tail) == Wash(tail)
  {
    hide Components, Render, Fold;
    OneComponent(DotDot(), tail);
    FoldSplit([], [DotDot()], Components(tail));
    FoldOne([], DotDot());
  }
}
