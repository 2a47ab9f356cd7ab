/**
 * The merge at the end of `parseAlbum` (main.go:578-590): when the profile
 * tiles left preliminary information under the album's URL, it fills the
 * album's date, photo count and view count from it, each only where the
 * album's own value is missing and the tile's value is present.
 */
module PrelimMerge {
  import opened GoText
  import opened Records

  /** The album with each empty field filled from the tile's information. */
  function Merged(a: Album, pi: PrelimInfo): Album
  {
    a.(
      date := if TrimSpace(a.date) == [] && TrimSpace(pi.date) != [] then TrimSpace(pi.date) else a.date,
      photosCnt := if a.photosCnt == 0 && pi.photosCnt > 0 then pi.photosCnt else a.photosCnt,
      viewsCnt := if a.viewsCnt == 0 && pi.viewsCnt > 0 then pi.viewsCnt else a.viewsCnt)
  }

  /** The merge as the album callback performs it: only when `prelim` holds the album's URL. */
  function MergeFrom(a: Album, prelim: map<string, PrelimInfo>): Album
  {
    if a.url in prelim then Merged(a, prelim[a.url]) else a
  }

  /**
   * The merge only fills: a date with text, a non-zero photo count and a
   * non-zero view count are kept, and nothing but these three fields changes.
   */
  lemma MergedKeeps(a: Album, pi: PrelimInfo)
    ensures var r := Merged(a, pi);
      && (TrimSpace(a.date) != [] ==> r.date == a.date)
      && (a.photosCnt != 0 ==> r.photosCnt == a.photosCnt)
      && (a.viewsCnt != 0 ==> r.viewsCnt == a.viewsCnt)
      && r.id == a.id && r.title == a.title && r.url == a.url && r.photos == a.photos
  {
  }

  /**
   * A field that changes takes the tile's value, and only a useful one: a
   * date with text (trimmed), a positive count.
   */
  lemma MergedTakes(a: Album, pi: PrelimInfo)
    ensures var r := Merged(a, pi);
      && (r.date != a.date ==> TrimSpace(a.date) == [] && TrimSpace(pi.date) != [] && r.date == TrimSpace(pi.date))
      && (r.photosCnt != a.photosCnt ==> a.photosCnt == 0 && pi.photosCnt > 0 && r.photosCnt == pi.photosCnt)
      && (r.viewsCnt != a.viewsCnt ==> a.viewsCnt == 0 && pi.viewsCnt > 0 && r.viewsCnt == pi.viewsCnt)
  {
  }

  /** An empty field is filled whenever the tile has a useful value for it. */
  lemma MergedFills(a: Album, pi: PrelimInfo)
    ensures var r := Merged(a, pi);
      && (TrimSpace(a.date) == [] && TrimSpace(pi.date) != [] ==> r.date == TrimSpace(pi.date))
      && (a.photosCnt == 0 && pi.photosCnt > 0 ==> r.photosCnt == pi.photosCnt)
      && (a.viewsCnt == 0 && pi.viewsCnt > 0 ==> r.viewsCnt == pi.viewsCnt)
  {
  }

  /** Without an entry for the album's URL the album is left as it is. */
  lemma MergeWithoutEntry(a: Album, prelim: map<string, PrelimInfo>)
    requires a.url !in prelim
    ensures MergeFrom(a, prelim) == a
  {
  }

  /** Merging twice with the same information is merging once. */
  lemma MergeIdempotent(a: Album, prelim: map<string, PrelimInfo>)
    ensures MergeFrom(MergeFrom(a, prelim), prelim) == MergeFrom(a, prelim)
  {
    if a.url in prelim {
      MergedTwice(a, prelim[a.url]);
    }
  }

  lemma MergedTwice(a: Album, pi: PrelimInfo)
    ensures Merged(Merged(a, pi), pi) == Merged(a, pi)
  {
    var once := Merged(a, pi);
    if TrimSpace(a.date) == [] && TrimSpace(pi.date) != [] {
      TrimSpaceIdempotent(pi.date);
      assert TrimSpace(once.date) != [];
    }
    assert Merged(once, pi).date == once.date;
  }

  /** The merge as written: the album's fields are overwritten one by one under the guards. */
  method MergePrelim(album: Album, prelim: map<string, PrelimInfo>) returns (merged: Album)
    ensures merged == MergeFrom(album, prelim)
  {
    merged := album;
    if merged.url in prelim {
      var pi := prelim[merged.url];
      if TrimSpace(merged.date) == [] && TrimSpace(pi.date) != [] {
        merged := merged.(date := TrimSpace(pi.date));
      }
      if merged.photosCnt == 0 && pi.photosCnt > 0 {
        merged := merged.(photosCnt := pi.photosCnt);
      }
      if merged.viewsCnt == 0 && pi.viewsCnt > 0 {
        merged := merged.(viewsCnt := pi.viewsCnt);
      }
    }
  }
}
