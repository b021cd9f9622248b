// fs/fs.c search_file once more, against the entries themselves: a search follows, name by name, the one entry of each
// directory that bears the name, and stops at the first that is missing or no directory's.

module Trails {
  import opened Disk
  import opened CStrings
  import opened Entries
  import opened Trees
  import opened TreeRuns
  import P = Paths

  /** Directory d has a live entry with this name for that inode, of a directory or of a file. */
  ghost predicate Bears(t: Tree, d: nat, name: seq<Byte>, i: nat, directory: bool) {
    d in t && exists q: nat ::
      q < |t[d]| && Live(t[d][q]) && Name(t[d][q]) == name && Target(t[d][q]) == i
      && (Kind(t[d][q]) == FT_DIRECTORY <==> directory)
  }

  /** Each directory has an entry with the next name for the next directory. */
  ghost predicate Trail(t: Tree, ds: seq<nat>, cs: seq<seq<Byte>>) {
    |ds| == |cs| + 1 && forall k: nat :: k < |cs| ==> Bears(t, ds[k], cs[k], ds[k + 1], true)
  }

  /** The directories entered, and what was found at the first name that led into none. */
  ghost predicate Outcome(t: Tree, d: nat, before: nat, cs: seq<seq<Byte>>, n: nat, ds: seq<nat>, r: Search) {
    && 1 <= |ds| <= |cs| + 1 && ds[0] == d && Trail(t, ds, cs[..|ds| - 1])
    && var last := ds[|ds| - 1];
    match r
    case Reached(i, p) => |ds| == |cs| + 1 && i == last && p == if cs == [] then before else ds[|cs| - 1]
    case AtFile(i, p, m) => |ds| <= |cs| && p == last && Bears(t, last, cs[|ds| - 1], i, false) && m == n + |ds|
    case Missing(p, m) => |ds| <= |cs| && p == last && NotThere(t, last, cs[|ds| - 1]) && m == n + |ds|
    case _ => false
  }

  /** At most one entry bears a name. */
  lemma BearsOne(t: Tree, depth: nat -> nat, d: nat, name: seq<Byte>, i: nat, directory: bool)
    requires TreeOk(t, depth) && Bears(t, d, name, i, directory)
    ensures var q := Find(t[d], name);
            && q < |t[d]| && Target(t[d][q]) == i && (Kind(t[d][q]) == FT_DIRECTORY <==> directory)
  {
    hide Live, Name, Target, Kind, Find;
    assert DirectoryOk(t, depth, d);
    var q: nat :| q < |t[d]| && Live(t[d][q]) && Name(t[d][q]) == name && Target(t[d][q]) == i
                  && (Kind(t[d][q]) == FT_DIRECTORY <==> directory);
    FindIs(t[d], q);
  }

  lemma MissingNot(t: Tree, d: nat, name: seq<Byte>)
    requires NotThere(t, d, name)
    ensures Find(t[d], name) == |t[d]|
  {
    hide Live, Name, Find;
  }

  lemma TrailTail(t: Tree, ds: seq<nat>, cs: seq<seq<Byte>>)
    requires Trail(t, ds, cs) && cs != []
    ensures Trail(t, ds[1..], cs[1..]) && Bears(t, ds[0], cs[0], ds[1], true)
  {
    hide Bears;
  }

  lemma TrailFront(t: Tree, d: nat, ds: seq<nat>, c: seq<Byte>, cs: seq<seq<Byte>>)
    requires Trail(t, ds, cs) && Bears(t, d, c, ds[0], true)
    ensures Trail(t, [d] + ds, [c] + cs)
  {
    hide Bears;
    var es, bs := [d] + ds, [c] + cs;
    forall k: nat | k < |bs| ensures Bears(t, es[k], bs[k], es[k + 1], true) {
      assert k > 0 ==> es[k] == ds[k - 1] && bs[k] == cs[k - 1] && es[k + 1] == ds[k - 1 + 1];
    }
  }

  /** Whatever a search finds, there is such a trail. */
  lemma {:induction false} WalkTrail(t: Tree, depth: nat -> nat, d: nat, before: nat, cs: seq<seq<Byte>>, n: nat)
      returns (ds: seq<nat>)
    requires TreeOk(t, depth) && EntriesFit(t) && d in t
    ensures Outcome(t, d, before, cs, n, ds, Walk(t, d, before, cs, n))
    decreases |cs|
  {
    hide Live, Name, Target, Kind, Find, TreeOk, EntriesFit, NotThere;
    ds := [d];
    if cs != [] {
      TreeRuns.OneName(t, depth, d, cs[0]);
      var q := Find(t[d], cs[0]);
      if q < |t[d]| {
        var e := Target(t[d][q]);
        assert Bears(t, d, cs[0], e, Kind(t[d][q]) == FT_DIRECTORY);
        if Kind(t[d][q]) == FT_DIRECTORY {
          var rest := WalkTrail(t, depth, e, d, cs[1..], n + 1);
          ds := [d] + rest;
          OutcomeFront(t, d, before, cs, n, e, rest, Walk(t, e, d, cs[1..], n + 1));
        }
      }
    }
  }

  lemma OutcomeFront(t: Tree, d: nat, before: nat, cs: seq<seq<Byte>>, n: nat, e: nat, ds: seq<nat>, r: Search)
    requires cs != [] && Bears(t, d, cs[0], e, true) && Outcome(t, e, d, cs[1..], n + 1, ds, r)
    ensures Outcome(t, d, before, cs, n, [d] + ds, r)
  {
    hide Bears, NotThere, Trail;
    var es, k := [d] + ds, |ds| - 1;
    TrailFront(t, d, ds, cs[0], cs[1..][..k]);
    assert [cs[0]] + cs[1..][..k] == cs[..k + 1];
    assert es[|es| - 1] == ds[k] && (k < |cs[1..]| ==> cs[1..][k] == cs[k + 1]);
    assert |cs| > 1 && |es| == |cs| + 1 ==> es[|cs| - 1] == ds[|cs| - 2];
  }

  lemma OutcomeTail(t: Tree, d: nat, before: nat, cs: seq<seq<Byte>>, n: nat, ds: seq<nat>, r: Search)
    requires Outcome(t, d, before, cs, n, ds, r) && |ds| > 1
    ensures cs != [] && Bears(t, d, cs[0], ds[1], true) && Outcome(t, ds[1], d, cs[1..], n + 1, ds[1..], r)
  {
    hide Bears, NotThere, Trail;
    var k := |ds| - 1;
    TrailTail(t, ds, cs[..k]);
    assert cs[..k][1..] == cs[1..][..k - 1] && cs[..k][0] == cs[0];
    assert ds[1..][k - 1] == ds[k] && (k < |cs| ==> cs[1..][k - 1] == cs[k]);
    assert |cs| > 1 && |ds| == |cs| + 1 ==> ds[1..][|cs| - 2] == ds[|cs| - 1];
  }

  /** And what a trail leads to is what the search finds. */
  lemma {:induction false} TrailWalk(t: Tree, depth: nat -> nat, d: nat, before: nat, cs: seq<seq<Byte>>, n: nat,
                                     ds: seq<nat>, r: Search)
    requires TreeOk(t, depth) && EntriesFit(t) && d in t && Outcome(t, d, before, cs, n, ds, r)
    ensures r == Walk(t, d, before, cs, n)
    decreases |cs|
  {
    hide Live, Name, Target, Kind, Find, TreeOk, EntriesFit, NotThere, Bears, Trail;
    if |ds| > 1 {
      OutcomeTail(t, d, before, cs, n, ds, r);
      BearsOne(t, depth, d, cs[0], ds[1], true);
      TreeRuns.OneName(t, depth, d, cs[0]);
      TrailWalk(t, depth, ds[1], d, cs[1..], n + 1, ds[1..], r);
    } else if r.AtFile? {
      BearsOne(t, depth, d, cs[0], r.ino, false);
    } else if r.Missing? {
      MissingNot(t, d, cs[0]);
    }
  }

  /**
   * search_file answers r exactly when r is the end of such a trail: for every path with at least one name whose
   * parsed names fit in their buffer.
   */
  lemma SearchFollows(t: Tree, depth: nat -> nat, path: seq<Byte>, r: Search)
    requires TreeOk(t, depth) && EntriesFit(t) && !RootPath(path) && |path| < 512
    requires P.Components(path) != [] && NamesFit(t, 0, P.Components(path))
    ensures r == SearchOf(t, path) <==> exists ds: seq<nat> :: Outcome(t, 0, 0, P.Components(path), 0, ds, r)
  {
    hide TreeOk, EntriesFit, P.Components, NamesFit, Walk, Outcome, RootPath;
    RootThere(t, depth);
    var cs := P.Components(path);
    if r == SearchOf(t, path) {
      var ds := WalkTrail(t, depth, 0, 0, cs, 0);
    }
    if ds: seq<nat> :| Outcome(t, 0, 0, cs, 0, ds, r) {
      TrailWalk(t, depth, 0, 0, cs, 0, ds, r);
    }
  }
}
