/** The admission rule of the catalog scan: an entry is a film when the
    final `.`-component of its name (the pathlib `suffix`) is one of a
    fixed set of video extensions. */
module PathSuffix {

  /** The extensions the scan admits, written exactly as compared:
      case-sensitive and with the leading dot. */
  const VideoExtensions: set<string> := {".avi", ".mkv", ".mp4", ".m4v", ".xvid", ".divx", ".mpeg"}

  /** Index of the last '.' in `s`, or -1 when there is none (`str.rfind`). */
  function LastDot(s: string): (i: int)
    ensures -1 <= i < |s|
    ensures i >= 0 ==> s[i] == '.'
    ensures forall j :: i < j < |s| ==> s[j] != '.'
  {
    if s == [] then -1
    else if s[|s| - 1] == '.' then |s| - 1
    else LastDot(s[..|s| - 1])
  }

  /** `PurePath.suffix` of a name: from the last dot to the end, provided
      that dot is neither the first nor the last character; otherwise "". */
  function Suffix(name: string): (suffix: string)
  {
    var i := LastDot(name);
    if 0 < i < |name| - 1 then name[i..] else ""
  }

  /** What the suffix of a name is, stated without `rfind`. */
  lemma SuffixShape(name: string)
    // empty exactly when the name ends in a dot or has no dot after its first character
    ensures Suffix(name) == "" <==>
      (|name| > 0 && name[|name| - 1] == '.') || (forall j :: 1 <= j < |name| ==> name[j] != '.')
    // otherwise the final dot-component, strictly shorter than the name
    ensures var r := Suffix(name);
      r != "" ==>
        2 <= |r| < |name| && r == name[|name| - |r|..] && r[0] == '.' &&
        forall k :: 1 <= k < |r| ==> r[k] != '.'
  {
  }

  /** The test at films_finder.py:74. */
  predicate IsVideo(name: string) {
    Suffix(name) in VideoExtensions
  }

  /** An extension in the shape every member of VideoExtensions has:
      a dot followed by at least one character, none of them a dot. */
  predicate DotWord(e: string) {
    |e| >= 2 && e[0] == '.' && forall k :: 1 <= k < |e| ==> e[k] != '.'
  }

  /** `name` ends with `e` and has at least one character before it. */
  predicate EndsWithAfterStem(name: string, e: string) {
    |e| < |name| && name[|name| - |e|..] == e
  }

  lemma AllExtensionsAreDotWords()
    ensures forall e :: e in VideoExtensions ==> DotWord(e)
  {
  }

  /** A dot-word that a name ends with, after a non-empty stem, is the
      name's suffix. */
  lemma {:induction false} SuffixOfDotWord(name: string, e: string)
    requires DotWord(e) && EndsWithAfterStem(name, e)
    ensures Suffix(name) == e
  {
  }

  /** Admission rule, stated without the suffix computation: a name is
      admitted exactly when it ends with one of the listed extensions and
      has a non-empty stem before it. Case matters, and the dot is part of
      the match. */
  lemma AdmissionRule(name: string)
    ensures IsVideo(name) <==> exists e :: e in VideoExtensions && EndsWithAfterStem(name, e)
  {
    SuffixShape(name);
    if IsVideo(name) {
      assert EndsWithAfterStem(name, Suffix(name));
    }
    if e :| e in VideoExtensions && EndsWithAfterStem(name, e) {
      AllExtensionsAreDotWords();
      SuffixOfDotWord(name, e);
    }
  }

  /** Names the rule refuses: a different case, an extension outside the
      list, a dot-file. */
  lemma AdmissionExamples()
    ensures IsVideo("a.mp4")
    ensures !IsVideo("a.MP4") && !IsVideo("movie.txt") && !IsVideo(".mp4")
  {
    SuffixOfDotWord("a.mp4", ".mp4");
    SuffixOfDotWord("a.MP4", ".MP4");
    SuffixOfDotWord("movie.txt", ".txt");
  }

  /** A stem made only of dots still counts as a stem: `..mp4` is admitted. */
  lemma DotStemAdmitted()
    ensures Suffix("..mp4") == ".mp4" && IsVideo("..mp4")
  {
    SuffixOfDotWord("..mp4", ".mp4");
  }
}
