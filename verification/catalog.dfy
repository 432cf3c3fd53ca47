/** The catalog scan: walking one category's subtree, collecting the names
    of the video entries into that category's film set and recording each
    name's resolved path in the path map shared by the whole search. */
module Catalog {
  import opened PathSuffix

  /** One path yielded by the recursive walk of a directory: its base name
      and the string of its resolved absolute path. */
  datatype Entry = Entry(name: string, resolved: string)

  /** The film set of a walk: names of the admitted entries. */
  function FilmSet(tree: seq<Entry>): (names: set<string>)
  {
    if tree == [] then {}
    else
      var last := tree[|tree| - 1];
      FilmSet(tree[..|tree| - 1]) + (if IsVideo(last.name) then {last.name} else {})
  }

  /** The path map after the walk has written every admitted entry into
      `paths`, in walk order. */
  function Record(paths: map<string, string>, tree: seq<Entry>): (paths': map<string, string>)
  {
    if tree == [] then paths
    else
      var last := tree[|tree| - 1];
      var before := Record(paths, tree[..|tree| - 1]);
      if IsVideo(last.name) then before[last.name := last.resolved] else before
  }

  /** All walks of a search in scan order, one after another. */
  function Concat(trees: seq<seq<Entry>>): (entries: seq<Entry>)
  {
    if trees == [] then [] else Concat(trees[..|trees| - 1]) + trees[|trees| - 1]
  }

  /** Admission rule on a walk: a name is in the film set exactly when some
      entry of the walk has that name and the name has a video suffix. */
  lemma {:induction false} FilmSetMembers(tree: seq<Entry>, n: string)
    ensures n in FilmSet(tree) <==> IsVideo(n) && exists i :: 0 <= i < |tree| && tree[i].name == n
  {
    if tree != [] {
      var init := tree[..|tree| - 1];
      FilmSetMembers(init, n);
      if i :| 0 <= i < |init| && init[i].name == n {
        assert tree[i].name == n;
      }
      if i :| 0 <= i < |tree| && tree[i].name == n {
        if i < |init| { assert init[i].name == n; }
      }
    }
  }

  /** Map coverage: the walk adds exactly its film set to the keys. */
  lemma {:induction false} RecordKeys(paths: map<string, string>, tree: seq<Entry>)
    ensures Record(paths, tree).Keys == paths.Keys + FilmSet(tree)
  {
    if tree != [] {
      RecordKeys(paths, tree[..|tree| - 1]);
    }
  }

  /** Last write wins: an admitted entry that no later entry of the walk
      shares a name with decides that name's path. */
  lemma {:induction false} RecordLastWrite(paths: map<string, string>, tree: seq<Entry>, i: nat)
    requires i < |tree| && IsVideo(tree[i].name)
    requires forall j :: i < j < |tree| ==> tree[j].name != tree[i].name
    ensures tree[i].name in Record(paths, tree)
    ensures Record(paths, tree)[tree[i].name] == tree[i].resolved
  {
    if i < |tree| - 1 {
      var init := tree[..|tree| - 1];
      assert init[i] == tree[i];
      RecordLastWrite(paths, init, i);
    }
  }

  /** A name the walk does not admit keeps whatever path it had. */
  lemma {:induction false} RecordUnwritten(paths: map<string, string>, tree: seq<Entry>, n: string)
    requires n !in FilmSet(tree)
    ensures n in Record(paths, tree) <==> n in paths
    ensures n in paths ==> Record(paths, tree)[n] == paths[n]
  {
    if tree != [] {
      RecordUnwritten(paths, tree[..|tree| - 1], n);
    }
  }

  /** Scanning two walks one after the other is scanning their concatenation. */
  lemma {:induction false} RecordAppend(paths: map<string, string>, a: seq<Entry>, b: seq<Entry>)
    ensures Record(paths, a + b) == Record(Record(paths, a), b)
    decreases |b|
  {
    if b != [] {
      assert (a + b)[..|a + b| - 1] == a + b[..|b| - 1];
      RecordAppend(paths, a, b[..|b| - 1]);
    } else {
      assert a + b == a;
    }
  }

  lemma {:induction false} FilmSetAppend(a: seq<Entry>, b: seq<Entry>)
    ensures FilmSet(a + b) == FilmSet(a) + FilmSet(b)
    decreases |b|
  {
    if b != [] {
      assert (a + b)[..|a + b| - 1] == a + b[..|b| - 1];
      FilmSetAppend(a, b[..|b| - 1]);
    } else {
      assert a + b == a;
    }
  }

  lemma {:induction false} ConcatAppend(a: seq<seq<Entry>>, b: seq<seq<Entry>>)
    ensures Concat(a + b) == Concat(a) + Concat(b)
    decreases |b|
  {
    if b != [] {
      assert (a + b)[..|a + b| - 1] == a + b[..|b| - 1];
      ConcatAppend(a, b[..|b| - 1]);
    } else {
      assert a + b == a;
    }
  }

  /** Every walk's admitted names are among those of all walks together. */
  lemma {:induction false} FilmSetConcatCovers(trees: seq<seq<Entry>>, k: nat)
    requires k < |trees|
    ensures FilmSet(trees[k]) <= FilmSet(Concat(trees))
  {
    var init, last := trees[..|trees| - 1], trees[|trees| - 1];
    assert Concat(trees) == Concat(init) + last;
    FilmSetAppend(Concat(init), last);
    if k < |init| {
      assert init[k] == trees[k];
      FilmSetConcatCovers(init, k);
    }
  }

  /** Every admitted name of all walks together comes from one of them. */
  lemma {:induction false} FilmSetConcatWithin(trees: seq<seq<Entry>>, n: string)
    requires n in FilmSet(Concat(trees))
    ensures exists k :: 0 <= k < |trees| && n in FilmSet(trees[k])
  {
    var init, last := trees[..|trees| - 1], trees[|trees| - 1];
    assert Concat(trees) == Concat(init) + last;
    FilmSetAppend(Concat(init), last);
    if n !in FilmSet(last) {
      FilmSetConcatWithin(init, n);
      var k :| 0 <= k < |init| && n in FilmSet(init[k]);
      assert trees[k] == init[k];
    }
  }

  /** The inner loop at films_finder.py:73-76 (and 82-85, 89-92): walk one
      subtree, growing a fresh film set and writing into the shared path map. */
  method ScanTree(tree: seq<Entry>, paths: map<string, string>)
    returns (filmset: set<string>, paths': map<string, string>)
    ensures filmset == FilmSet(tree)
    ensures paths' == Record(paths, tree)
  {
    filmset, paths' := {}, paths;
    var i := 0;
    while i < |tree|
      invariant 0 <= i <= |tree|
      invariant filmset == FilmSet(tree[..i])
      invariant paths' == Record(paths, tree[..i])
    {
      var p := tree[i];
      if Suffix(p.name) in VideoExtensions {
        filmset := filmset + {p.name};
        paths' := paths'[p.name := p.resolved];
      }
      assert tree[..i + 1][..i] == tree[..i];
      i := i + 1;
    }
    assert tree[..|tree|] == tree;
  }
}
