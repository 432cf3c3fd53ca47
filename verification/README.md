# films_finder search core, modelled in Dafny

films_finder is a small desktop app for a film collection that is sorted
into folders. The user picks a genres root, an actors root and, if they
want, an extra filter folder (for example, one director's films). They
select genres and actors in two lists and press SEARCH. The app then walks
each selected category's subtree and collects the video files in it. It
shows the films whose file name appears under every selected category.

This project models that search (`perform_film_search`) and the listing
step that fills the genre and actor lists:

- `PathSuffix` (suffix.dfy) covers the admission rule. An entry counts as a
  film when its `pathlib` suffix is one of `.avi .mkv .mp4 .m4v .xvid .divx .mpeg`.
  The match is case-sensitive and includes the dot.
- `Catalog` (catalog.dfy) covers the scan of one walk. Each admitted
  name goes into that category's film set. Its resolved path is written
  into the path map that the whole search shares. `ScanTree` is the loop
  itself. `FilmSet` and `Record` are the functions it is proved against.
- `Ordering` (ordering.dfy) covers Python's string order (code point by
  code point, and a proper prefix comes first). It also gives `SortedSet`,
  which is `sorted` applied to a set of names.
- `Search` (search.dfy) covers the rest of the search. First comes the
  selection guard. Then the genre loop, the actor loop and the
  filter-folder scan run (`ScanCategories`, `ScanAll`). The last step is
  the sorted intersection. A search ends in one of three outcomes:
  `InvalidSelection`, `NoMatches`, or `Found(films, paths)`. `paths[i]`
  is the path that the link for `films[i]` launches.
- `Listing` (listing.dfy) covers the genre and actor choices. They are
  the sorted names of the root's entries that are directories.

The file system is an input. Each selected genre or actor is a `Category`
that holds its name and the entries that the recursive walk of its
directory yields. Each entry is a base name plus the resolved path string.
The filter folder works the same way: its string plus its walk. A directory
listing is a sequence of `DirEntry(name, isDir)`.

Two things the code does that a reader might not expect:

- A filter folder on its own does not make a valid selection. The search
  is refused unless at least one genre or actor is selected.
- The code has no "directory not found" error. Walking a directory that
  does not exist yields nothing, which gives an empty film set.

The walk yields directories as well as files. A directory whose name ends
in a video extension is admitted like a file. The model keeps that, because
an `Entry` is any path the walk yields.

## Model

| member | source | states |
|---|---|---|
| PathSuffix.LastDot | films_finder.py:74 | the index of the last `.` in a name, or -1: the character there is a dot and none follows it |
| PathSuffix.SuffixShape | films_finder.py:74 | a suffix is empty exactly when the name ends in a dot or has no dot after its first character; otherwise it is the final dot-component, shorter than the name, with no other dot |
| PathSuffix.SuffixOfDotWord | films_finder.py:74 | a name that ends with a dot-word after a non-empty stem has that dot-word as its suffix |
| PathSuffix.AdmissionRule | films_finder.py:69-75 | an entry is admitted exactly when its name ends with one of the seven extensions and has a non-empty stem before it |
| PathSuffix.DotStemAdmitted | films_finder.py:74 | a stem made only of dots still counts: `..mp4` has the suffix `.mp4` and is admitted |
| PathSuffix.Suffix | films_finder.py:74 | `p.suffix`: from the last dot to the end when that dot is neither the first nor the last character, else empty; its meaning is stated by `SuffixShape` and `SuffixOfDotWord` |
| PathSuffix.IsVideo | films_finder.py:69-74 | the test `p.suffix in extensions`; `AdmissionRule` states which names pass it |
| PathSuffix.AdmissionExamples | films_finder.py:69-74 | `a.mp4` is admitted; `a.MP4` (other case), `movie.txt` and the dot-file `.mp4` are not |
| Ordering.Less | films_finder.py:94 | Python's `<` on `str`, by which `sorted` orders the names; `LessTrichotomy` and `LessTransitive` prove it a strict total order |
| Ordering.LessTrichotomy | films_finder.py:94 | any two different strings are ordered one way or the other |
| Ordering.LessTransitive | films_finder.py:94 | the string order is transitive |
| Ordering.SortedSet | films_finder.py:94 | `sorted` of a set: strictly ascending, holding exactly the set's members, with as many entries as the set has |
| Ordering.SortedUnique | films_finder.py:94 | two strictly ascending lists with the same members are equal, so the sorted result does not depend on the order in which the set is iterated |
| Catalog.FilmSet | films_finder.py:71-77 | the `filmset` one walk builds; `FilmSetMembers` states which names are in it |
| Catalog.Record | films_finder.py:76 | the writes one walk makes into `filmpaths`; `RecordKeys`, `RecordLastWrite`, `RecordUnwritten` and `RecordAppend` state the map it leaves |
| Catalog.FilmSetMembers | films_finder.py:73-75 | a name is in a category's film set exactly when the walk yields an entry with that name and the name has a video suffix |
| Catalog.RecordKeys | films_finder.py:74-76 | the walk adds exactly its film set to the keys of the path map |
| Catalog.RecordLastWrite | films_finder.py:76 | when several entries share a name, the last admitted one decides that name's path |
| Catalog.RecordUnwritten | films_finder.py:74-76 | a name the walk does not admit keeps whatever path it already had, and stays absent if it was absent |
| Catalog.RecordAppend | films_finder.py:70-92 | writing one walk after another into the map is the same as writing their concatenation |
| Catalog.ScanTree | films_finder.py:73-76 | the inner loop returns the walk's film set, and the map with every admitted entry written into it in walk order |
| Search.HasSelection | films_finder.py:62 | the guard: some genre or actor is selected; `PerformFilmSearch` proves the search refused exactly when it fails |
| Search.FilmSets | films_finder.py:66-93 | the `filmsets` list of a search; `FilmSetsMembers` and `FilmSetsShape` state its entries |
| Search.FilmPaths | films_finder.py:67-92 | the `filmpaths` map of a search; `FilmPathsKeys` and `FilmPathsLastWrite` state its keys and values |
| Search.Intersection | films_finder.py:94 | `set.intersection(*filmsets)`; `IntersectionMembers` states its members |
| Search.SearchOutcome | films_finder.py:62-113 | the end of `perform_film_search` as a function of the selection and the walks; `SearchResultMembers`, `EmptyFilmSetNoMatches` and `SearchOrderIndependent` state its properties, and `PerformFilmSearch` is proved to compute it |
| Search.IntersectionMembers | films_finder.py:94 | a name is in `set.intersection(*filmsets)` exactly when it is in every film set |
| Search.IntersectionSameSets | films_finder.py:94 | the intersection depends only on which sets are listed, not on their order or repetition |
| Search.FilmSetsMembers | films_finder.py:70-93 | the film sets of a search are those of the selected categories, plus the filter folder's when its string is non-empty |
| Search.FilmSetsShape | films_finder.py:70-93 | one film set per genre, then one per actor, then one more exactly when the filter folder string is non-empty, each the film set of its own walk |
| Search.ScanOrderParts | films_finder.py:70-93 | the entries are scanned in this order: the genres' walks, then the actors', then the filter folder's |
| Search.FilmPathsKeys | films_finder.py:75-92 | map coverage: the keys of `filmpaths` are exactly the names that are in at least one film set |
| Search.ResultsHavePaths | films_finder.py:113 | every name in the intersection has a path, so the lookup for every result link succeeds |
| Search.FilmPathsLastWrite | films_finder.py:76-92 | last write wins across the search: a film's path is the path of the last admitted entry with that name in scan order |
| Search.SearchResultMembers | films_finder.py:94-97 | with a selection, the outcome is never `InvalidSelection`; films found are strictly ascending and are exactly the names in every film set; `NoMatches` means no name is in all of them |
| Search.EmptyFilmSetNoMatches | films_finder.py:94-97 | if any film set is empty, the outcome is `NoMatches` |
| Search.SearchOrderIndependent | films_finder.py:94 | whether the search is refused, finds nothing or finds films, and which films it finds, do not depend on the order of the selections or on whether a category was picked as a genre or as an actor; the paths may differ, because the last write wins |
| Search.ScanCategories | films_finder.py:70-86 | the genre or actor loop appends one film set per category in selection order, and leaves the map with every category's walk written into it in order |
| Search.ScanAll | films_finder.py:66-93 | the scan builds exactly the `filmsets` list and the `filmpaths` map of the search |
| Search.PerformFilmSearch | films_finder.py:62-113 | the outcome is `InvalidSelection` exactly when no genre and no actor is selected, whatever the filter folder; otherwise it is the outcome of the sorted intersection; a found list is non-empty and pairs every film with a path |
| Listing.DirNames | films_finder.py:40 | the comprehension of lines 40 and 47 before sorting; `DirNamesMembers` states which names it keeps |
| Listing.Choices | films_finder.py:40 | the choices are strictly ascending, and a name is offered exactly when some entry of the root with that name is a directory |
| Listing.DirNamesMembers | films_finder.py:47 | the comprehension keeps exactly the names of the entries that are directories |
| Listing.ChoicesSortDirNames | films_finder.py:40-47 | since a directory's entries have distinct names, the choices are the comprehension's names rearranged, which is what `sorted` returns |

## Left out

- Window layout, the `StringVar`s, the list boxes, the message boxes and the results window (its title, header text and labels) are UI only. The model keeps only the outcome that picks the warning or the results, plus the path each link would launch.
- `launch` and `webbrowser.open_new` are left out because they hand a URL to the operating system.
- The Windows DPI call through `ctypes` is left out because it is a foreign call.
- The file system is left out: the folder picker, `os.scandir`, `is_dir`, `Path.rglob`, `Path.resolve` and `os.path.join`. Their results are inputs: each category's walk, each entry's resolved path string, and the root's listing. The order of a walk is whatever that input says.
- Only the `Path.suffix` rule of Python up to 3.13 is modelled. Python 3.14 changes it in two ways. First, a name ending in `.` gets the suffix `.` instead of an empty one. This does not change admission, since `.` is not one of the extensions. Second, leading dots are stripped before the last dot is looked for, so a name whose stem is only dots has no suffix there. Under 3.14, `..mp4` is therefore not admitted, while the model (`PathSuffix.DotStemAdmitted`) admits it, as Python up to 3.13 does.
- Failing file-system calls are left out. In the code, an exception aborts the whole search or listing: no warning, no results window, and no skipping of the bad entry. Two examples are the `RuntimeError` that `Path.resolve` raises in Python 3.12 for a symlink loop such as `loop.mp4 -> loop.mp4` (films_finder.py:76, 85, 92), and the `PermissionError` that `os.scandir` raises for an unreadable root (films_finder.py:40, 47). The model takes the results of these calls as inputs and has no outcome for such a failure.
- The listing step takes a directory's entries as its input. Their names are distinct because they come from one directory. `Listing.ChoicesSortDirNames` assumes this, since duplicate names cannot occur in a real listing.
- File names that Python holds with lone surrogate code points are outside the model. These come from undecodable bytes on POSIX, which Python keeps as surrogate escapes, or from unpaired UTF-16 surrogates on Windows. Dafny strings hold only Unicode scalar values, so the model's names and its code-point order (used by `sorted` at films_finder.py:40, 47 and 94) cover every other name but not these.
