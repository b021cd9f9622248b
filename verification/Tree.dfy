// fs/fs.c search_file and sys_getcwd: the directory tree read downwards by name and upwards by "..".

module Trees {
  import opened Disk
  import opened CStrings
  import opened Entries
  import P = Paths

  /** Every directory's entry table, by inode number. */
  type Tree = map<nat, seq<Entry>>

  /** The entry of `parent` that leads to directory `d`. */
  ghost predicate ChildAt(t: Tree, parent: nat, q: nat, d: nat) {
    parent in t && 2 <= q < |t[parent]| && Live(t[parent][q]) && Target(t[parent][q]) == d
        && Kind(t[parent][q]) == FT_DIRECTORY
  }

  function Parent(t: Tree, d: nat): nat
    requires d in t && |t[d]| == 252
  {
    Target(t[d][1])
  }

  /**
   * A directory tree: every table is well formed, "." is the directory itself, the root is its own parent, and every
   * other directory hangs one level below its parent, which has an entry for it.
   */
  ghost predicate TreeOk(t: Tree, depth: nat -> nat) {
    && 0 in t && depth(0) == 0
    && (forall d {:trigger DirectoryOk(t, depth, d)} :: d in t ==> DirectoryOk(t, depth, d))
  }

  ghost predicate DirectoryOk(t: Tree, depth: nat -> nat, d: nat) {
    && d in t && GoodTable(t[d]) && Target(t[d][0]) == d && Kind(t[d][0]) == FT_DIRECTORY
    && Kind(t[d][1]) == FT_DIRECTORY
    && Parent(t, d) in t
    && (d == 0 ==> Parent(t, d) == 0)
    && (d != 0 ==> depth(d) == depth(Parent(t, d)) + 1 && exists q: nat :: ChildAt(t, Parent(t, d), q, d))
  }

  lemma RootThere(t: Tree, depth: nat -> nat)
    requires TreeOk(t, depth)
    ensures 0 in t
  {
    hide DirectoryOk;
  }

  // ---------------------------------------------------------------- downwards

  /** The first slot with this name, or the number of slots. */
  function Find(s: seq<Entry>, name: seq<Byte>): (q: nat)
    ensures q <= |s| && (q < |s| ==> Live(s[q]) && Name(s[q]) == name)
    ensures forall p: nat :: p < q ==> !(Live(s[p]) && Name(s[p]) == name)
  {
    if s == [] then 0 else if Live(s[0]) && Name(s[0]) == name then 0 else 1 + Find(s[1..], name)
  }

  lemma FindIs(s: seq<Entry>, q: nat)
    requires NamesOk(s) && q < |s| && Live(s[q])
    ensures Find(s, Name(s[q])) == q
  {
    hide Live, Name, Find;
    OneName(s, q, Find(s, Name(s[q])));
  }

  lemma OneName(s: seq<Entry>, p: nat, q: nat)
    requires NamesOk(s) && p < |s| && Live(s[p]) && q <= |s| && (q < |s| ==> Live(s[q]) && Name(s[q]) == Name(s[p]))
    requires forall i: nat :: i < q ==> !(Live(s[i]) && Name(s[i]) == Name(s[p]))
    ensures p == q
  {
    hide Live, Name;
  }

  datatype Found = NotFound | Directory(ino: nat) | Regular(ino: nat)

  /**
   * Resolving a list of names from a directory.  A regular file ends the search at once, whatever is left of the path.
   * Live entries are regular files or directories.
   */
  function Resolve(t: Tree, d: nat, cs: seq<seq<Byte>>): Found
    decreases |cs|
  {
    if cs == [] then Directory(d)
    else if d !in t then NotFound
    else
      var q := Find(t[d], cs[0]);
      if q == |t[d]| then NotFound
      else if Kind(t[d][q]) == FT_DIRECTORY then Resolve(t, Target(t[d][q]), cs[1..])
      else Regular(Target(t[d][q]))
  }

  lemma {:induction false} ResolveMore(t: Tree, d: nat, cs: seq<seq<Byte>>, c: seq<Byte>)
    requires Resolve(t, d, cs).Directory?
    ensures Resolve(t, d, cs + [c]) == Resolve(t, Resolve(t, d, cs).ino, [c])
    decreases |cs|
  {
    hide Live, Name, Target, Kind, Find;
    if cs == [] {
      assert cs + [c] == [c];
    } else {
      assert (cs + [c])[1..] == cs[1..] + [c] && (cs + [c])[0] == cs[0];
      ResolveMore(t, Target(t[d][Find(t[d], cs[0])]), cs[1..], c);
    }
  }

  /**
   * What search_file finds out: where the path leads and the directory searched last before that, or the directory in
   * which a name is missing; and how many names searched_path has then, a missing one included. SearchHalted is its
   * ASSERT on the length; Undefined, that it returned an entry it never filled in, or ran over its 16-byte name
   * buffer.
   */
  datatype Search =
    | SearchHalted | Undefined
    | Missing(parent: nat, depth: nat) | Reached(ino: nat, parent: nat) | AtFile(ino: nat, parent: nat, depth: nat)

  function Walk(t: Tree, d: nat, before: nat, cs: seq<seq<Byte>>, n: nat): (r: Search)
    ensures !r.SearchHalted? && !r.Undefined?
    decreases |cs|
  {
    if cs == [] then Reached(d, before)
    else if d !in t then Missing(d, n + 1)
    else
      var q := Find(t[d], cs[0]);
      if q == |t[d]| then Missing(d, n + 1)
      else if Kind(t[d][q]) == FT_DIRECTORY then Walk(t, Target(t[d][q]), d, cs[1..], n + 1)
      else AtFile(Target(t[d][q]), d, n + 1)
  }

  /** The inode a search returns. */
  function Result(r: Search): Found
    requires !r.SearchHalted? && !r.Undefined?
  {
    match r case Missing(_, _) => NotFound case Reached(i, _) => Directory(i) case AtFile(i, _, _) => Regular(i)
  }

  lemma {:induction false} WalkResolves(t: Tree, d: nat, before: nat, cs: seq<seq<Byte>>, n: nat)
    ensures Result(Walk(t, d, before, cs, n)) == Resolve(t, d, cs)
    decreases |cs|
  {
    hide Live, Name, Target, Kind, Find;
    if cs != [] && d in t {
      var q := Find(t[d], cs[0]);
      if q < |t[d]| && Kind(t[d][q]) == FT_DIRECTORY {
        WalkResolves(t, Target(t[d][q]), d, cs[1..], n + 1);
      }
    }
  }

  /** Every name that the search parses fits in its buffer: the next one is parsed as soon as a name was found. */
  predicate NamesFit(t: Tree, d: nat, cs: seq<seq<Byte>>)
    decreases |cs|
  {
    cs != [] ==>
      && |cs[0]| <= 15
      && (d in t ==>
            var q := Find(t[d], cs[0]);
            q < |t[d]| ==>
              && (|cs| > 1 ==> |cs[1]| <= 15)
              && (Kind(t[d][q]) == FT_DIRECTORY ==> NamesFit(t, Target(t[d][q]), cs[1..])))
  }

  lemma {:induction false} ShortNamesFit(t: Tree, d: nat, cs: seq<seq<Byte>>)
    requires P.ShortNames(cs)
    ensures NamesFit(t, d, cs)
    decreases |cs|
  {
    hide Live, Name, Target, Kind, Find;
    if cs != [] && d in t {
      var q := Find(t[d], cs[0]);
      if q < |t[d]| && Kind(t[d][q]) == FT_DIRECTORY {
        ShortNamesFit(t, Target(t[d][q]), cs[1..]);
      }
    }
  }

  /** "/", "/." and "/..": answered without a search. */
  predicate RootPath(path: seq<Byte>) {
    path in [[47], [47, 46], [47, 46, 46]]
  }

  /** What search_file returns for a path. */
  function SearchOf(t: Tree, path: seq<Byte>): Search {
    if RootPath(path) then Reached(0, 0)
    else if |path| >= 512 then SearchHalted
    else if P.Components(path) == [] || !NamesFit(t, 0, P.Components(path)) then Undefined
    else Walk(t, 0, 0, P.Components(path), 0)
  }

  /**
   * With names of at most 15 characters and less than 512 characters in all, search_file resolves the path's components
   * exactly when there is one or the path is "/".
   */
  lemma SearchExactly(t: Tree, depth: nat -> nat, path: seq<Byte>)
    requires TreeOk(t, depth) && |path| < 512 && P.ShortNames(P.Components(path))
    ensures var r := SearchOf(t, path);
            && !r.SearchHalted?
            && (!r.Undefined? && Result(r) == Resolve(t, 0, P.Components(path)) <==>
                path == [P.Slash()] || P.Components(path) != [])
  {
    hide TreeOk, P.Components, NamesFit, P.ShortNames, Resolve, Walk;
    ShortNamesFit(t, 0, P.Components(path));
    WalkResolves(t, 0, 0, P.Components(path), 0);
    if RootPath(path) {
      RootPaths(t, depth, path);
    }
  }

  /** "//": no test at the top matches, and no name is parsed, so what comes back was never written. */
  lemma SearchTwoSlashes(t: Tree)
    ensures SearchOf(t, [P.Slash(), P.Slash()]).Undefined?
  {
    var p := [P.Slash(), P.Slash()];
    assert p[1..] == [P.Slash()] && P.DropSlashes(p[1..]) == [];
    assert P.Components(p) == [];
  }

  /** search_file: path_parse and search_dir_entry, name after name. */
  method SearchFile(t: Tree, path: seq<Byte>) returns (r: Search)
    requires path != [] && path[0] == P.Slash() && P.Plain(path)
    ensures r == SearchOf(t, path)
  {
    hide P.Components, P.DropSlashes, P.TakeName, Find, Kind, Target;
    var root := IsRootPath(path);
    if root {
      return Reached(0, 0);
    }
    if |path| >= 512 {
      return SearchHalted;
    }
    var d: nat, before: nat, n: nat := 0, 0, 0;
    P.ParseStep(path);
    var name, rest := P.PathParse(path);
    ghost var cs := P.Components(path);
    ghost var left := cs;
    if name == [] {
      return Undefined;
    }
    if |name| >= 16 {
      return Undefined;
    }
    while name != []
      invariant Walk(t, 0, 0, cs, 0) == Walk(t, d, before, left, n) && NamesFit(t, 0, cs) == NamesFit(t, d, left)
      invariant (name == [] <==> left == []) && (name != [] ==> left[0] == name && |name| <= 15)
      invariant name != [] ==> match rest case NoMore => |left| == 1 case From(q) => left == [name] + P.Components(q)
      decreases |left|
    {
      if d !in t {
        return Missing(d, n + 1);
      }
      var q := Find(t[d], name);
      if q == |t[d]| {
        return Missing(d, n + 1);
      }
      var next, after := [], P.NoMore;
      match rest {
        case NoMore =>
        case From(p) =>
          assert left[1..] == P.Components(p);
          P.ParseStep(p);
          next, after := P.PathParse(p);
      }
      if |next| >= 16 {
        return Undefined;
      }
      if Kind(t[d][q]) != FT_DIRECTORY {
        return AtFile(Target(t[d][q]), d, n + 1);
      }
      d, before, n := Target(t[d][q]), d, n + 1;
      left, name, rest := left[1..], next, after;
    }
    return Reached(d, before);
  }

  /** The three strncmp tests at the top of search_file: exactly "/", "/." and "/..". */
  method IsRootPath(path: seq<Byte>) returns (root: bool)
    requires P.Plain(path)
    ensures root <==> RootPath(path)
  {
    hide Text, Ordered;
    P.BufferText(path);
    P.BufferText([47]);
    P.BufferText([47, 46]);
    P.BufferText([47, 46, 46]);
    var a := Strncmp(path + [0], [47] + [0], 1);
    var b := Strncmp(path + [0], [47, 46] + [0], 2);
    var c := Strncmp(path + [0], [47, 46, 46] + [0], 3);
    root := a == 0 || b == 0 || c == 0;
  }

  /** The short cut agrees with the search: the root's "." and ".." lead to the root. */
  lemma RootPaths(t: Tree, depth: nat -> nat, path: seq<Byte>)
    requires TreeOk(t, depth) && RootPath(path)
    ensures Resolve(t, 0, P.Components(path)) == Directory(0) && (path == [P.Slash()] <==> P.Components(path) == [])
  {
    hide P.Components, Find, Kind, Target, Live, Name, P.DropSlashes, P.TakeName, GoodTable, Resolve;
    assert DirectoryOk(t, depth, 0);
    RootComponents();
    DotsFound(t[0]);
    ResolveNothing(t);
    StepDown(t, 0, 0, 0);
    StepDown(t, 0, 1, 0);
  }

  lemma RootComponents()
    ensures P.Components([47]) == [] && P.Components([47, 46]) == [[46]] && P.Components([47, 46, 46]) == [[46, 46]]
  {
    hide P.Components, P.DropSlashes, P.TakeName;
    P.ComponentsNil();
    P.ComponentsSlash();
    P.OneComponent([46], []);
    P.OneComponent([46, 46], []);
    assert [P.Slash()] + [46] + [] == [47, 46] && [[46]] + P.Components([]) == [[46]];
    assert [P.Slash()] + [46, 46] + [] == [47, 46, 46] && [[46, 46]] + P.Components([]) == [[46, 46]];
  }

  lemma DotsFound(s: seq<Entry>)
    requires GoodTable(s)
    ensures |s| == 252 && Live(s[0]) && Live(s[1]) && Name(s[0]) == [46] && Name(s[1]) == [46, 46]
    ensures Find(s, Name(s[0])) == 0 && Find(s, Name(s[1])) == 1
  {
    hide Live, Name, Find;
    FindIs(s, 0);
    FindIs(s, 1);
  }

  lemma ResolveNothing(t: Tree)
    ensures Resolve(t, 0, []) == Directory(0)
  {
  }

  // ---------------------------------------------------------------- upwards

  /** The name under which a directory hangs in its parent. */
  function NameOf(t: Tree, d: nat): seq<Byte>
    requires d in t && |t[d]| == 252 && Parent(t, d) in t
  {
    var s := t[Parent(t, d)];
    var q := FindTarget(s, d);
    if q < |s| then Name(s[q]) else []
  }

  /** get_child_dir_name looks at the inode numbers of all slots, live or not, from the first on. */
  function FindTarget(s: seq<Entry>, ino: nat): (q: nat)
    ensures q <= |s| && (q < |s| ==> Target(s[q]) == ino) && forall p: nat :: p < q ==> Target(s[p]) != ino
  {
    if s == [] then 0 else if Target(s[0]) == ino then 0 else 1 + FindTarget(s[1..], ino)
  }

  lemma FreeTarget()
    ensures Target(Free()) == 0
  {
  }

  /**
   * The first slot with the child's number is the child's own entry: free slots carry number 0, "." and ".." lead to
   * directories that are not deeper than the parent.
   */
  lemma FindsChild(t: Tree, depth: nat -> nat, d: nat, q: nat)
    requires TreeOk(t, depth) && d in t && d != 0 && DirectoryOk(t, depth, d) && ChildAt(t, Parent(t, d), q, d)
    ensures FindTarget(t[Parent(t, d)], d) == q
  {
    hide Live, Name, Target, Kind, FindTarget, GoodTable;
    DotsFound(t[d]);
    var p := Parent(t, d);
    assert DirectoryOk(t, depth, p);
    DotsFound(t[p]);
    FirstWithTarget(t[p], d, q);
  }

  lemma FirstWithTarget(s: seq<Entry>, d: nat, q: nat)
    requires GoodTable(s) && d != 0 && Target(s[0]) != d && Target(s[1]) != d
    requires 2 <= q < |s| && Live(s[q]) && Target(s[q]) == d
    ensures FindTarget(s, d) == q
  {
    hide Live, Name, Target, FindTarget, NamesOk, Free;
    FreeTarget();
    var r := FindTarget(s, d);
    assert 2 <= r <= q;
    assert s[r] != Free() && Live(s[r]);
  }

  /** The names from the root down to a directory. */
  ghost function Chain(t: Tree, depth: nat -> nat, d: nat): seq<seq<Byte>>
    requires TreeOk(t, depth) && d in t
    decreases depth(d)
  {
    assert DirectoryOk(t, depth, d);
    if d == 0 then [] else Chain(t, depth, Parent(t, d)) + [NameOf(t, d)]
  }

  /** Resolving the chain of a directory from the root arrives at the directory. */
  lemma {:induction false} ChainResolves(t: Tree, depth: nat -> nat, d: nat)
    requires TreeOk(t, depth) && d in t
    ensures Resolve(t, 0, Chain(t, depth, d)) == Directory(d)
    decreases depth(d)
  {
    hide Live, Name, Target, Kind, FindTarget, Find;
    assert DirectoryOk(t, depth, d);
    if d != 0 {
      var p := Parent(t, d);
      ChainResolves(t, depth, p);
      ResolveMore(t, 0, Chain(t, depth, p), NameOf(t, d));
      var q: nat :| ChildAt(t, p, q, d);
      FindsChild(t, depth, d, q);
      assert DirectoryOk(t, depth, p);
      FindIs(t[p], q);
      StepDown(t, p, q, d);
    }
  }

  /** ... and with the name of a regular file behind it, at that file. */
  lemma FileResolves(t: Tree, depth: nat -> nat, d: nat, q: nat)
    requires TreeOk(t, depth) && d in t && 2 <= q < |t[d]| && Live(t[d][q]) && Kind(t[d][q]) != FT_DIRECTORY
    ensures Resolve(t, 0, Chain(t, depth, d) + [Name(t[d][q])]) == Regular(Target(t[d][q]))
  {
    hide Live, Name, Target, Kind, Find, Chain;
    ChainResolves(t, depth, d);
    ResolveMore(t, 0, Chain(t, depth, d), Name(t[d][q]));
    assert DirectoryOk(t, depth, d);
    FindIs(t[d], q);
  }

  lemma StepDown(t: Tree, p: nat, q: nat, d: nat)
    requires p in t && q < |t[p]| && Live(t[p][q]) && Find(t[p], Name(t[p][q])) == q
    requires Target(t[p][q]) == d && Kind(t[p][q]) == FT_DIRECTORY
    ensures Resolve(t, p, [Name(t[p][q])]) == Directory(d)
  {
    hide Live, Name, Target, Kind, Find;
    var cs := [Name(t[p][q])];
    assert cs[1..] == [];
  }

  lemma {:induction false} ChainNames(t: Tree, depth: nat -> nat, d: nat)
    requires TreeOk(t, depth) && d in t && NoSlashes(t)
    ensures P.AllNames(Chain(t, depth, d))
    decreases depth(d)
  {
    hide Live, Name, Target, Kind, FindTarget;
    assert DirectoryOk(t, depth, d);
    if d != 0 {
      var p := Parent(t, d);
      ChainNames(t, depth, p);
      var q: nat :| ChildAt(t, p, q, d);
      FindsChild(t, depth, d, q);
      assert DirectoryOk(t, depth, p);
      NameHasNoNul(t[p][q]);
    }
  }

  /** Names in a tree fit in their buffers. */
  lemma {:induction false} ChainShort(t: Tree, depth: nat -> nat, d: nat)
    requires TreeOk(t, depth) && d in t
    ensures P.ShortNames(Chain(t, depth, d))
    decreases depth(d)
  {
    hide Live, Name, Target, Kind, FindTarget;
    assert DirectoryOk(t, depth, d);
    if d != 0 {
      var p := Parent(t, d);
      ChainShort(t, depth, p);
      var q: nat :| ChildAt(t, p, q, d);
      FindsChild(t, depth, d, q);
      assert DirectoryOk(t, depth, p);
    }
  }

  /** No entry name contains a slash: names come from path_parse. */
  ghost predicate NoSlashes(t: Tree) {
    forall d, q: nat :: d in t && q < |t[d]| && Live(t[d][q]) ==> P.Slash() !in Name(t[d][q])
  }

  lemma NameHasNoNul(e: Entry)
    ensures 0 !in Name(e)
  {
  }

  /** sys_getcwd and search_file are inverse: the path of a directory leads back to it. */
  lemma GetcwdSearch(t: Tree, depth: nat -> nat, d: nat)
    requires TreeOk(t, depth) && d in t && NoSlashes(t)
    ensures Resolve(t, 0, P.Components(P.Render(Chain(t, depth, d)))) == Directory(d)
  {
    hide TreeOk, NoSlashes, P.Components, P.Render, P.AllNames;
    ChainNames(t, depth, d);
    P.ComponentsOfRender(Chain(t, depth, d));
    ChainResolves(t, depth, d);
  }

  /** ... and search_file itself, on every such path that fits in its buffers. */
  lemma GetcwdFound(t: Tree, depth: nat -> nat, d: nat)
    requires TreeOk(t, depth) && d in t && NoSlashes(t) && |P.Render(Chain(t, depth, d))| < 512
    ensures var r := SearchOf(t, P.Render(Chain(t, depth, d))); r.Reached? && r.ino == d
  {
    hide TreeOk, NoSlashes, P.Components, P.Render, P.AllNames, Chain, SearchOf, P.ShortNames, Resolve;
    var cs := Chain(t, depth, d);
    ChainNames(t, depth, d);
    ChainShort(t, depth, d);
    P.ComponentsOfRender(cs);
    GetcwdSearch(t, depth, d);
    P.RenderEmpty();
    SearchExactly(t, depth, P.Render(cs));
  }

  /** The path of a regular file leads to it as well. */
  lemma FileFound(t: Tree, depth: nat -> nat, d: nat, q: nat)
    requires TreeOk(t, depth) && d in t && 2 <= q < |t[d]| && Live(t[d][q]) && Kind(t[d][q]) != FT_DIRECTORY
    requires NoSlashes(t) && |P.Render(Chain(t, depth, d) + [Name(t[d][q])])| < 512
    ensures var r := SearchOf(t, P.Render(Chain(t, depth, d) + [Name(t[d][q])])); r.AtFile? && r.ino == Target(t[d][q])
  {
    hide Live, Name, Target, Kind, P.Components, P.Render, Chain, SearchOf, Resolve, Clean, TargetsOk;
    assert DirectoryOk(t, depth, d);
    NameHasNoNul(t[d][q]);
    var up, name := Chain(t, depth, d), Name(t[d][q]);
    ChainNames(t, depth, d);
    ChainShort(t, depth, d);
    FileResolves(t, depth, d, q);
    assert P.IsName(name);
    P.ComponentsOfRender(up + [name]);
    SearchExactly(t, depth, P.Render(up + [name]));
  }

  // ---------------------------------------------------------------- sys_getcwd

  function Reversed(cs: seq<seq<Byte>>): (r: seq<seq<Byte>>)
    ensures |r| == |cs|
  {
    if cs == [] then [] else [cs[|cs| - 1]] + Reversed(cs[..|cs| - 1])
  }

  /** The first loop of sys_getcwd: names from the leaf to the root, each behind a slash. */
  method CollectNames(t: Tree, ghost depth: nat -> nat, d: nat) returns (path: seq<Byte>, ghost names: seq<seq<Byte>>)
    requires TreeOk(t, depth) && d in t
    ensures names == Reversed(Chain(t, depth, d)) && path == P.Prefix(names)
  {
    hide TreeOk, P.Prefix, Target, Name, FindTarget, Reversed, Live;
    ghost var rest := Chain(t, depth, d);
    var child := d;
    path, names := [], [];
    P.PrefixNil();
    assert [] + Reversed(rest) == Reversed(rest);
    while child != 0
      invariant child in t && rest == Chain(t, depth, child) && names + Reversed(rest) == Reversed(Chain(t, depth, d))
      invariant path == P.Prefix(names)
      decreases depth(child)
    {
      ChildFacts(t, depth, child);
      var parent := Target(t[child][1]);
      var q := FindTarget(t[parent], child);
      assert q < |t[parent]|;
      var name := Name(t[parent][q]);
      PrefixGrows(names, name);
      path := path + [P.Slash()] + name;
      ReversedLast(rest);
      assert rest[..|rest| - 1] == Chain(t, depth, parent);
      assert names + ([name] + Reversed(rest[..|rest| - 1])) == (names + [name]) + Reversed(rest[..|rest| - 1]);
      names := names + [name];
      rest := Chain(t, depth, parent);
      child := parent;
    }
    ReversedNil();
    ChainRoot(t, depth);
    assert names + [] == names;
  }

  lemma ChildFacts(t: Tree, depth: nat -> nat, d: nat)
    requires TreeOk(t, depth) && d in t && d != 0
    ensures |t[d]| == 252
    ensures var p := Target(t[d][1]);
            && p in t && depth(p) < depth(d) && FindTarget(t[p], d) < |t[p]|
            && Chain(t, depth, d) == Chain(t, depth, p) + [Name(t[p][FindTarget(t[p], d)])]
  {
    hide Live, Name, Target, Kind, FindTarget, GoodTable;
    assert DirectoryOk(t, depth, d);
    DotsFound(t[d]);
    var q: nat :| ChildAt(t, Parent(t, d), q, d);
    FindsChild(t, depth, d, q);
  }

  lemma PrefixGrows(cs: seq<seq<Byte>>, c: seq<Byte>)
    ensures P.Prefix(cs + [c]) == P.Prefix(cs) + [P.Slash()] + c
  {
    assert (cs + [c])[..|cs|] == cs;
  }

  lemma ReversedLast(cs: seq<seq<Byte>>)
    ensures cs != [] ==> Reversed(cs) == [cs[|cs| - 1]] + Reversed(cs[..|cs| - 1])
  {
  }

  lemma ReversedNil()
    ensures Reversed([]) == []
  {
  }

  lemma ChainRoot(t: Tree, depth: nat -> nat)
    requires TreeOk(t, depth)
    ensures Chain(t, depth, 0) == []
  {
  }

  /** The second loop: the part from the last slash on moves to the end of the result until nothing is left. */
  method ReverseNames(path: seq<Byte>, ghost names: seq<seq<Byte>>) returns (buf: seq<Byte>)
    requires path == P.Prefix(names) && P.AllNames(names)
    ensures buf == P.Prefix(Reversed(names))
  {
    hide P.Prefix, P.AllNames, Reversed, P.LastSlash;
    var left := path;
    ghost var rest, done: seq<seq<Byte>> := names, [];
    buf := [];
    P.PrefixNil();
    assert [] + Reversed(names) == Reversed(names);
    PrefixSlash(rest);
    while P.Slash() in left
      invariant left == P.Prefix(rest) && P.AllNames(rest) && buf == P.Prefix(done)
      invariant done + Reversed(rest) == Reversed(names)
      invariant P.Slash() in left <==> rest != []
      decreases |rest|
    {
      LastPiece(rest);
      var i := P.Strrchr(left);
      PrefixGrows(done, rest[|rest| - 1]);
      ReversedLast(rest);
      P.LastIsName(rest);
      buf := buf + left[i..];
      left := left[..i];
      assert done + ([rest[|rest| - 1]] + Reversed(rest[..|rest| - 1])) ==
          (done + [rest[|rest| - 1]]) + Reversed(rest[..|rest| - 1]);
      done := done + [rest[|rest| - 1]];
      rest := rest[..|rest| - 1];
      PrefixSlash(rest);
    }
    ReversedNil();
    assert done + [] == done;
  }

  lemma PrefixSlash(cs: seq<seq<Byte>>)
    ensures P.Slash() in P.Prefix(cs) <==> cs != []
  {
  }

  lemma LastPiece(cs: seq<seq<Byte>>)
    requires cs != [] && P.AllNames(cs)
    ensures P.Slash() in P.Prefix(cs)
    ensures var i := P.LastSlash(P.Prefix(cs));
            P.Prefix(cs)[..i] == P.Prefix(cs[..|cs| - 1]) && P.Prefix(cs)[i..] == [P.Slash()] + cs[|cs| - 1]
  {
    hide P.LastSlash, P.Prefix, P.AllNames;
    P.PrefixLast(cs);
    P.LastIsName(cs);
    SplitLast(P.Prefix(cs[..|cs| - 1]), cs[|cs| - 1]);
  }

  lemma SplitLast(up: seq<Byte>, last: seq<Byte>)
    requires P.Slash() !in last
    ensures var s := up + [P.Slash()] + last;
            P.Slash() in s && P.LastSlash(s) == |up| && s[..|up|] == up && s[|up|..] == [P.Slash()] + last
  {
    hide P.LastSlash;
    var s := up + [P.Slash()] + last;
    assert s[|up| + 1..] == last && s[|up|] == P.Slash();
    P.LastSlashIs(s, |up|);
  }

  lemma {:induction false} ReversedTwice(cs: seq<seq<Byte>>)
    ensures Reversed(Reversed(cs)) == cs
    decreases |cs|
  {
    if cs != [] {
      var n := |cs| - 1;
      ReversedTwice(cs[..n]);
      ReversedFront([cs[n]], Reversed(cs[..n]));
      assert Reversed([cs[n]]) == [cs[n]];
    }
  }

  lemma {:induction false} ReversedFront(a: seq<seq<Byte>>, b: seq<seq<Byte>>)
    ensures Reversed(a + b) == Reversed(b) + Reversed(a)
    decreases |b|
  {
    if b == [] {
      assert a + b == a;
    } else {
      var n := |b| - 1;
      assert (a + b)[..|a + b| - 1] == a + b[..n] && (a + b)[|a + b| - 1] == b[n];
      ReversedFront(a, b[..n]);
    }
  }

  lemma {:induction false} ReversedNames(cs: seq<seq<Byte>>)
    requires P.AllNames(cs)
    ensures P.AllNames(Reversed(cs))
    decreases |cs|
  {
    if cs != [] {
      ReversedNames(cs[..|cs| - 1]);
    }
  }

  /** CwdOverflows: the reversed path does not fit in its buffer of 512 bytes; CwdHalted: the ASSERT on the caller's. */
  datatype Cwd = CwdOverflows | CwdHalted | Path(path: seq<Byte>)

  /**
   * sys_getcwd: the absolute path of a directory, for every directory of the tree; `size` is that of the caller's
   * buffer.
   */
  method Getcwd(t: Tree, ghost depth: nat -> nat, d: nat, size: nat) returns (r: Cwd)
    requires TreeOk(t, depth) && NoSlashes(t) && d in t
    ensures r.CwdOverflows? <==> |P.Render(Chain(t, depth, d))| >= 512
    ensures r.CwdHalted? <==> d != 0 && size < |P.Render(Chain(t, depth, d))| < 512
    ensures r.Path? ==> r.path == P.Render(Chain(t, depth, d)) && Resolve(t, 0, P.Components(r.path)) == Directory(d)
  {
    hide TreeOk, NoSlashes, P.Prefix, P.AllNames, Reversed, P.Components, Resolve, Chain;
    GetcwdSearch(t, depth, d);
    if d == 0 {
      ChainRoot(t, depth);
      P.RenderEmpty();
      return Path([P.Slash()]);
    }
    ghost var cs := Chain(t, depth, d);
    ChildFacts(t, depth, d);
    ChainNames(t, depth, d);
    var path;
    ghost var names;
    path, names := CollectNames(t, depth, d);
    ReversedNames(cs);
    ReversedTwice(cs);
    PrefixLength(cs);
    if |path| >= 512 {
      return CwdOverflows;
    }
    if |path| > size {
      return CwdHalted;
    }
    var buf := ReverseNames(path, names);
    return Path(buf);
  }

  /** Names and slashes take as much room in either order. */
  lemma {:induction false} PrefixLength(cs: seq<seq<Byte>>)
    ensures |P.Prefix(Reversed(cs))| == |P.Prefix(cs)|
    decreases |cs|
  {
    if cs != [] {
      hide P.Prefix, Reversed;
      var n := |cs| - 1;
      PrefixLength(cs[..n]);
      ReversedLast(cs);
      P.PrefixLast(cs);
      PrefixFront(cs[n], Reversed(cs[..n]));
    }
  }

  lemma {:induction false} PrefixFront(c: seq<Byte>, cs: seq<seq<Byte>>)
    ensures |P.Prefix([c] + cs)| == 1 + |c| + |P.Prefix(cs)|
    decreases |cs|
  {
    hide P.Prefix;
    P.PrefixNil();
    P.PrefixLast([c] + cs);
    if cs == [] {
      assert [c] + cs == [c] && [c][..0] == [];
    } else {
      var n := |cs| - 1;
      assert ([c] + cs)[..|cs|] == [c] + cs[..n] && ([c] + cs)[|cs|] == cs[n];
      PrefixFront(c, cs[..n]);
      P.PrefixLast(cs);
    }
  }
}
