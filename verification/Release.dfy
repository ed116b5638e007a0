/** Releases and their copies, as the merge reads and writes them. */
module Release {
  import opened Basics

  // The fields of a release that no merge writes: what identifies one NZB, and marks
  // set elsewhere. `normTitle` is the title after normalisation and lower-casing,
  // both of which happen elsewhere.
  datatype Ident = Ident(title: string, normTitle: string, link: string, detailsUrl: string, guid: string,
                         indexer: string, isLibrary: bool, querySource: string, password: bool,
                         available: Option<bool>, uniqueHit: bool)

  // One copy of a release: its identity and the attributes describing the release.
  datatype Copy = Copy(id: Ident, grabs: int, size: int, pubDate: string, duration: int,
                       poster: string, usenetDate: string, languages: seq<string>, subtitles: seq<string>)

  // A variant can be nil.
  datatype Release = Release(primary: Copy, variants: seq<Option<Copy>>)

  // The parts of the environment the merge takes as they are: the caller's score
  // of a copy, date parsing, and the folding that case-insensitive comparison
  // compares by.
  datatype Env = Env(rank: Copy -> int, parseDate: string -> Option<int>, fold: string -> string)

  function CopiesOf(r: Release): seq<Copy> {
    [r.primary] + Present(r.variants)
  }

  /** Every copy of every release in a list, in order, nils left out. */
  function Flatten(releases: seq<Option<Release>>): seq<Copy> {
    if releases == [] then []
    else
      var n := |releases| - 1;
      Flatten(releases[..n]) + match releases[n] case None => [] case Some(r) => CopiesOf(r)
  }

  datatype Key = Details(s: string) | Guid(s: string) | Title(s: string)

  function KeysOf(id: Ident): seq<Key> {
    (if id.detailsUrl != "" then [Details(id.detailsUrl)] else [])
    + (if id.guid != "" then [Guid(id.guid)] else [])
    + (if id.normTitle != "" then [Title(id.normTitle)] else [])
  }

  function Keys(c: Copy): seq<Key> {
    KeysOf(c.id)
  }

  ghost predicate Share(a: Copy, b: Copy) {
    exists k :: k in Keys(a) && k in Keys(b)
  }

  ghost predicate Transitive(copies: set<Copy>) {
    forall a, b, c :: a in copies && b in copies && c in copies && Share(a, b) && Share(b, c) ==> Share(a, c)
  }
}
