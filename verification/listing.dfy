/** The genre and actor choices: the sorted names of the sub-directories
    found directly under the chosen root. */
module Listing {
  import opened Ordering

  /** One entry of a directory listing: its name and whether it is a
      directory. */
  datatype DirEntry = DirEntry(name: string, isDir: bool)

  /** The entries of one directory have different names. */
  predicate DistinctNames(listing: seq<DirEntry>) {
    forall i, j :: 0 <= i < j < |listing| ==> listing[i].name != listing[j].name
  }

  /** The list comprehension of films_finder.py:40 and 47 before sorting:
      directory names in listing order. */
  function DirNames(listing: seq<DirEntry>): (names: seq<string>) {
    if listing == [] then []
    else
      var last := listing[|listing| - 1];
      DirNames(listing[..|listing| - 1]) + (if last.isDir then [last.name] else [])
  }

  /** The choices offered for a root: its directory names, ascending. Files
      are never offered. */
  function Choices(listing: seq<DirEntry>): (r: seq<string>)
    ensures StrictlyAscending(r)
    ensures forall n :: n in r <==> exists i :: 0 <= i < |listing| && listing[i].isDir && listing[i].name == n
  {
    SortedSet(set i | 0 <= i < |listing| && listing[i].isDir :: listing[i].name)
  }

  predicate NoDuplicates(s: seq<string>) {
    forall i, j :: 0 <= i < j < |s| ==> s[i] != s[j]
  }

  lemma {:induction false} DirNamesMembers(listing: seq<DirEntry>, n: string)
    ensures n in DirNames(listing) <==>
      exists i :: 0 <= i < |listing| && listing[i].isDir && listing[i].name == n
  {
    if listing != [] {
      var init := listing[..|listing| - 1];
      DirNamesMembers(init, n);
      if i :| 0 <= i < |init| && init[i].isDir && init[i].name == n {
        assert listing[i] == init[i];
      }
      if i :| 0 <= i < |listing| && listing[i].isDir && listing[i].name == n {
        if i < |init| { assert init[i] == listing[i]; }
      }
    }
  }

  lemma {:induction false} DirNamesDistinct(listing: seq<DirEntry>)
    requires DistinctNames(listing)
    ensures NoDuplicates(DirNames(listing))
  {
    if listing != [] {
      var init, last := listing[..|listing| - 1], listing[|listing| - 1];
      assert DistinctNames(init) by {
        forall i, j | 0 <= i < j < |init| ensures init[i].name != init[j].name {
          assert init[i] == listing[i] && init[j] == listing[j];
        }
      }
      DirNamesDistinct(init);
      if last.isDir {
        DirNamesMembers(init, last.name);
        assert last.name !in DirNames(init) by {
          forall i | 0 <= i < |init| ensures init[i].name != last.name {
            assert init[i] == listing[i];
          }
        }
      }
    }
  }

  /** In a list without duplicates every member occurs once. */
  lemma {:induction false} NoDuplicatesCount(s: seq<string>, x: string)
    requires NoDuplicates(s)
    ensures multiset(s)[x] == if x in s then 1 else 0
  {
    if s != [] {
      var init := s[..|s| - 1];
      assert s == init + [s[|s| - 1]];
      assert NoDuplicates(init) by {
        forall i, j | 0 <= i < j < |init| ensures init[i] != init[j] {
          assert init[i] == s[i] && init[j] == s[j];
        }
      }
      NoDuplicatesCount(init, x);
      assert s[|s| - 1] !in init by {
        forall i | 0 <= i < |init| ensures init[i] != s[|s| - 1] {
          assert init[i] == s[i];
        }
      }
    }
  }

  /** With the distinct names a directory has, the choices are exactly the
      comprehension's names, each once, rearranged into ascending order:
      what `sorted` of that list returns. */
  lemma ChoicesSortDirNames(listing: seq<DirEntry>)
    requires DistinctNames(listing)
    ensures multiset(Choices(listing)) == multiset(DirNames(listing))
  {
    var r, d := Choices(listing), DirNames(listing);
    DirNamesDistinct(listing);
    assert NoDuplicates(r) by {
      forall i, j | 0 <= i < j < |r| ensures r[i] != r[j] {
        LessIrreflexive(r[i]);
      }
    }
    forall x ensures multiset(r)[x] == multiset(d)[x] {
      NoDuplicatesCount(r, x);
      NoDuplicatesCount(d, x);
      DirNamesMembers(listing, x);
    }
  }
}
