/** The film search: the selection guard, one scan per selected genre, per
    selected actor and for the filter folder, then the sorted intersection
    of the film sets and the path of every film found. */
module Search {
  import opened PathSuffix
  import opened Ordering
  import opened Catalog

  /** A selected genre or actor: its name and what the recursive walk of its
      directory (the genres or actors root joined with the name) yields. */
  datatype Category = Category(name: string, tree: seq<Entry>)

  /** The selection at search time. `filterFolder` is the filter folder
      string, "" when none was chosen; `filterTree` is what walking that
      folder yields. */
  datatype Criteria = Criteria(
    genres: seq<Category>,
    actors: seq<Category>,
    filterFolder: string,
    filterTree: seq<Entry>)

  /** The three ends of a search: the "Invalid Selection" warning, the
      "No Matches" warning, or the list of films with, for each, the path
      its link launches. */
  datatype Outcome =
    | InvalidSelection
    | NoMatches
    | Found(films: seq<string>, paths: seq<string>)

  /** At least one genre or actor is selected; the filter folder alone does
      not count. */
  predicate HasSelection(c: Criteria) {
    c.genres != [] || c.actors != []
  }

  function TreesOf(cats: seq<Category>): (trees: seq<seq<Entry>>) {
    seq(|cats|, i requires 0 <= i < |cats| => cats[i].tree)
  }

  /** The walks of a search in scan order: genres, actors, filter folder. */
  function Trees(c: Criteria): (trees: seq<seq<Entry>>) {
    TreesOf(c.genres) + TreesOf(c.actors) + (if c.filterFolder != "" then [c.filterTree] else [])
  }

  function FilmSetsOf(trees: seq<seq<Entry>>): (sets: seq<set<string>>) {
    seq(|trees|, i requires 0 <= i < |trees| => FilmSet(trees[i]))
  }

  /** The `filmsets` list of a search. */
  function FilmSets(c: Criteria): (sets: seq<set<string>>) {
    FilmSetsOf(Trees(c))
  }

  /** Every entry the search walks, in the order it walks them. */
  function ScanOrder(c: Criteria): (entries: seq<Entry>) {
    Concat(Trees(c))
  }

  /** The `filmpaths` map of a search. */
  function FilmPaths(c: Criteria): (paths: map<string, string>) {
    Record(map[], ScanOrder(c))
  }

  /** `set.intersection(*sets)`, which needs at least one set. */
  function Intersection(sets: seq<set<string>>): (common: set<string>)
    requires |sets| > 0
  {
    if |sets| == 1 then sets[0]
    else Intersection(sets[..|sets| - 1]) * sets[|sets| - 1]
  }

  predicate InEvery(x: string, sets: seq<set<string>>) {
    forall k :: 0 <= k < |sets| ==> x in sets[k]
  }

  /** What a search ends in, as films_finder.py:62-97 and the lookups of
      line 113 decide it. */
  function SearchOutcome(c: Criteria): (outcome: Outcome) {
    if !HasSelection(c) then InvalidSelection
    else
      var films := SortedSet(Intersection(FilmSets(c)));
      if films == [] then NoMatches
      else
        ResultsHavePaths(c);
        Found(films, seq(|films|, i requires 0 <= i < |films| => FilmPaths(c)[films[i]]))
  }

  /** A name is in the intersection exactly when it is in every set. */
  lemma {:induction false} IntersectionMembers(sets: seq<set<string>>, x: string)
    requires |sets| > 0
    ensures x in Intersection(sets) <==> InEvery(x, sets)
  {
    if |sets| > 1 {
      var init := sets[..|sets| - 1];
      IntersectionMembers(init, x);
      if InEvery(x, init) && x in sets[|sets| - 1] {
        forall k | 0 <= k < |sets| ensures x in sets[k] {
          if k < |init| { assert init[k] == sets[k]; }
        }
      }
      if InEvery(x, sets) {
        forall k | 0 <= k < |init| ensures x in init[k] {
          assert init[k] == sets[k];
        }
      }
    }
  }

  /** The intersection depends only on which sets are listed, not on their
      order or repetition. */
  lemma IntersectionSameSets(a: seq<set<string>>, b: seq<set<string>>)
    requires |a| > 0 && |b| > 0
    requires forall s :: s in a <==> s in b
    ensures Intersection(a) == Intersection(b)
  {
    forall x ensures x in Intersection(a) <==> x in Intersection(b) {
      IntersectionMembers(a, x);
      IntersectionMembers(b, x);
      if InEvery(x, a) {
        forall k | 0 <= k < |b| ensures x in b[k] {
          assert b[k] in a;
        }
      }
      if InEvery(x, b) {
        forall k | 0 <= k < |a| ensures x in a[k] {
          assert a[k] in b;
        }
      }
    }
  }

  /** Map coverage: the keys of `filmpaths` are exactly the names in some
      film set. */
  lemma FilmPathsKeys(c: Criteria, n: string)
    ensures n in FilmPaths(c) <==> exists k :: 0 <= k < |FilmSets(c)| && n in FilmSets(c)[k]
  {
    var trees := Trees(c);
    RecordKeys(map[], ScanOrder(c));
    if n in FilmPaths(c) {
      FilmSetConcatWithin(trees, n);
      var k :| 0 <= k < |trees| && n in FilmSet(trees[k]);
      assert FilmSets(c)[k] == FilmSet(trees[k]);
    }
    if k :| 0 <= k < |FilmSets(c)| && n in FilmSets(c)[k] {
      FilmSetConcatCovers(trees, k);
    }
  }

  /** Every film of the intersection has a path, so the lookup behind each
      result link succeeds. */
  lemma ResultsHavePaths(c: Criteria)
    requires HasSelection(c)
    ensures forall n :: n in Intersection(FilmSets(c)) ==> n in FilmPaths(c)
  {
    forall n | n in Intersection(FilmSets(c)) ensures n in FilmPaths(c) {
      IntersectionMembers(FilmSets(c), n);
      assert n in FilmSets(c)[0];
      FilmPathsKeys(c, n);
    }
  }

  /** The scan order is the genres' walks, then the actors', then the
      filter folder's. */
  lemma ScanOrderParts(c: Criteria)
    ensures ScanOrder(c) ==
      Concat(TreesOf(c.genres)) + Concat(TreesOf(c.actors)) +
      (if c.filterFolder != "" then c.filterTree else [])
  {
    var g, a := TreesOf(c.genres), TreesOf(c.actors);
    var f: seq<seq<Entry>> := if c.filterFolder != "" then [c.filterTree] else [];
    ConcatAppend(g + a, f);
    ConcatAppend(g, a);
    assert Concat(f) == if c.filterFolder != "" then c.filterTree else [] by {
      if c.filterFolder != "" {
        assert f[..0] == [];
      }
    }
  }

  /** Last write wins across the whole search: the path of a film name is
      that of the last admitted entry with that name in scan order. */
  lemma FilmPathsLastWrite(c: Criteria, i: nat)
    requires i < |ScanOrder(c)| && IsVideo(ScanOrder(c)[i].name)
    requires forall j :: i < j < |ScanOrder(c)| ==> ScanOrder(c)[j].name != ScanOrder(c)[i].name
    ensures ScanOrder(c)[i].name in FilmPaths(c)
    ensures FilmPaths(c)[ScanOrder(c)[i].name] == ScanOrder(c)[i].resolved
  {
    RecordLastWrite(map[], ScanOrder(c), i);
  }

  /** The films found are in strictly ascending order and are exactly the
      names present in every film set; "No Matches" means no name is. */
  lemma SearchResultMembers(c: Criteria, x: string)
    requires HasSelection(c)
    ensures SearchOutcome(c) != InvalidSelection
    ensures SearchOutcome(c).Found? ==>
      StrictlyAscending(SearchOutcome(c).films) &&
      (x in SearchOutcome(c).films <==> InEvery(x, FilmSets(c)))
    ensures SearchOutcome(c).NoMatches? ==> !InEvery(x, FilmSets(c))
  {
    IntersectionMembers(FilmSets(c), x);
  }

  /** A film set that is empty leaves nothing to find. */
  lemma EmptyFilmSetNoMatches(c: Criteria, k: nat)
    requires HasSelection(c)
    requires k < |FilmSets(c)| && FilmSets(c)[k] == {}
    ensures SearchOutcome(c) == NoMatches
  {
    var films := SortedSet(Intersection(FilmSets(c)));
    if films != [] {
      IntersectionMembers(FilmSets(c), films[0]);
    }
  }

  /** The films found do not depend on the order of the selections, nor on
      whether a category was picked as a genre or as an actor. Only their
      paths can differ, because the last write wins. */
  lemma SearchOrderIndependent(c1: Criteria, c2: Criteria)
    requires forall s :: s in c1.genres + c1.actors <==> s in c2.genres + c2.actors
    requires (c1.filterFolder == "") == (c2.filterFolder == "")
    requires c1.filterFolder != "" ==> c1.filterTree == c2.filterTree
    ensures SearchOutcome(c1).InvalidSelection? == SearchOutcome(c2).InvalidSelection?
    ensures SearchOutcome(c1).NoMatches? == SearchOutcome(c2).NoMatches?
    ensures SearchOutcome(c1).Found? ==>
      SearchOutcome(c2).Found? && SearchOutcome(c1).films == SearchOutcome(c2).films
  {
    assert HasSelection(c1) <==> HasSelection(c2) by {
      if HasSelection(c1) {
        assert (c1.genres + c1.actors)[0] in c2.genres + c2.actors;
      }
      if HasSelection(c2) {
        assert (c2.genres + c2.actors)[0] in c1.genres + c1.actors;
      }
    }
    if HasSelection(c1) {
      forall s ensures s in FilmSets(c1) <==> s in FilmSets(c2) {
        FilmSetsMembers(c1, s);
        FilmSetsMembers(c2, s);
      }
      IntersectionSameSets(FilmSets(c1), FilmSets(c2));
    }
  }

  /** Which sets the `filmsets` list holds: one per selected category, and
      the filter folder's when there is one. */
  lemma FilmSetsMembers(c: Criteria, s: set<string>)
    ensures s in FilmSets(c) <==>
      (exists cat :: cat in c.genres + c.actors && s == FilmSet(cat.tree)) ||
      (c.filterFolder != "" && s == FilmSet(c.filterTree))
  {
    var cats := c.genres + c.actors;
    var trees := Trees(c);
    assert |trees| == |cats| + (if c.filterFolder != "" then 1 else 0);
    assert forall i :: 0 <= i < |cats| ==> trees[i] == cats[i].tree;
    if s in FilmSets(c) {
      var i :| 0 <= i < |trees| && FilmSets(c)[i] == s;
      if i < |cats| {
        assert cats[i] in cats;
      }
    }
    if cat :| cat in cats && s == FilmSet(cat.tree) {
      var i :| 0 <= i < |cats| && cats[i] == cat;
      assert FilmSets(c)[i] == s;
    }
    if c.filterFolder != "" && s == FilmSet(c.filterTree) {
      assert FilmSets(c)[|cats|] == s;
    }
  }

  /** One more category extends the walks, their concatenation and their
      film sets by that category's walk. Stated apart so that the loop body
      of `ScanCategories` stays within the default resource limit. */
  lemma TreesOfSnoc(cats: seq<Category>, i: nat)
    requires i < |cats|
    ensures TreesOf(cats[..i + 1]) == TreesOf(cats[..i]) + [cats[i].tree]
    ensures Concat(TreesOf(cats[..i + 1])) == Concat(TreesOf(cats[..i])) + cats[i].tree
    ensures FilmSetsOf(TreesOf(cats[..i + 1])) ==
      FilmSetsOf(TreesOf(cats[..i])) + [FilmSet(cats[i].tree)]
  {
  }

  /** The genre loop (films_finder.py:70-77) and the actor loop (79-86):
      one fresh film set per category, appended in selection order, all
      writing into the same path map. */
  method ScanCategories(cats: seq<Category>, filmsets: seq<set<string>>, paths: map<string, string>)
    returns (filmsets': seq<set<string>>, paths': map<string, string>)
    ensures filmsets' == filmsets + FilmSetsOf(TreesOf(cats))
    ensures paths' == Record(paths, Concat(TreesOf(cats)))
  {
    filmsets', paths' := filmsets, paths;
    var i := 0;
    while i < |cats|
      invariant 0 <= i <= |cats|
      invariant filmsets' == filmsets + FilmSetsOf(TreesOf(cats[..i]))
      invariant paths' == Record(paths, Concat(TreesOf(cats[..i])))
    {
      var filmset;
      filmset, paths' := ScanTree(cats[i].tree, paths');
      TreesOfSnoc(cats, i);
      RecordAppend(paths, Concat(TreesOf(cats[..i])), cats[i].tree);
      filmsets' := filmsets' + [filmset];
      i := i + 1;
    }
    assert cats[..|cats|] == cats;
  }

  /** The `filmsets` list is the genres' sets, then the actors', then the
      filter folder's. */
  lemma FilmSetsParts(c: Criteria)
    ensures FilmSets(c) ==
      FilmSetsOf(TreesOf(c.genres)) + FilmSetsOf(TreesOf(c.actors)) +
      (if c.filterFolder != "" then [FilmSet(c.filterTree)] else [])
  {
  }

  /** Shape of `filmsets`: one set per selected genre, one per selected
      actor, and one more exactly when the filter folder string is
      non-empty, each the film set of its own walk. */
  lemma FilmSetsShape(c: Criteria)
    ensures |FilmSets(c)| == |c.genres| + |c.actors| + (if c.filterFolder != "" then 1 else 0)
    ensures forall i :: 0 <= i < |c.genres| ==> FilmSets(c)[i] == FilmSet(c.genres[i].tree)
    ensures forall i :: 0 <= i < |c.actors| ==>
      FilmSets(c)[|c.genres| + i] == FilmSet(c.actors[i].tree)
    ensures c.filterFolder != "" ==>
      FilmSets(c)[|c.genres| + |c.actors|] == FilmSet(c.filterTree)
  {
  }

  /** The scan of films_finder.py:66-93: genres, then actors, then the
      filter folder when its string is non-empty. */
  method ScanAll(c: Criteria) returns (filmsets: seq<set<string>>, filmpaths: map<string, string>)
    ensures filmsets == FilmSets(c) && filmpaths == FilmPaths(c)
  {
    ghost var g, a := Concat(TreesOf(c.genres)), Concat(TreesOf(c.actors));
    filmsets, filmpaths := ScanCategories(c.genres, [], map[]);
    assert [] + FilmSetsOf(TreesOf(c.genres)) == FilmSetsOf(TreesOf(c.genres));
    filmsets, filmpaths := ScanCategories(c.actors, filmsets, filmpaths);
    RecordAppend(map[], g, a);
    if c.filterFolder != "" {
      var filmset;
      filmset, filmpaths := ScanTree(c.filterTree, filmpaths);
      RecordAppend(map[], g + a, c.filterTree);
      filmsets := filmsets + [filmset];
    } else {
      assert g + a + [] == g + a;
    }
    ScanOrderParts(c);
    FilmSetsParts(c);
  }

  /** `perform_film_search` without its widgets: the guard of line 62, the
      scan, the sorted intersection of line 94, the empty check of line 95
      and the path lookup of line 113 for every film listed. */
  method PerformFilmSearch(c: Criteria) returns (outcome: Outcome)
    ensures outcome == SearchOutcome(c)
    ensures outcome.InvalidSelection? <==> c.genres == [] && c.actors == []
    ensures outcome.Found? ==> outcome.films != [] && |outcome.paths| == |outcome.films|
  {
    if !(c.genres != [] || c.actors != []) {
      return InvalidSelection;
    }
    var filmsets, filmpaths := ScanAll(c);
    var films := SortedSet(Intersection(filmsets));
    if films == [] {
      return NoMatches;
    }
    ResultsHavePaths(c);
    var paths := [];
    var i := 0;
    while i < |films|
      invariant 0 <= i <= |films|
      invariant paths == seq(i, k requires 0 <= k < i => filmpaths[films[k]])
    {
      paths := paths + [filmpaths[films[i]]];
      i := i + 1;
    }
    outcome := Found(films, paths);
  }
}
