/**
 * The crawl `zoneramaHandler` runs: the profile callback scans the tiles,
 * sorts them newest first and dispatches one album request per distinct URL
 * up to `album_limit`, remembering each tile's information under its URL;
 * the album callback reads the album, merges that information in and adds
 * it to the response; at the end the albums are sorted newest first.
 *
 * Requests run concurrently in the source, guarded by a mutex. Here each
 * callback is one step on a `Crawl` object and a dispatched request is
 * recorded by appending its URL to `dispatched`.
 */
module Scheduler {
  import opened Base
  import opened GoText
  import opened CzDate
  import opened Records
  import opened StableOrder
  import opened Tiles
  import opened AlbumPage
  import opened PrelimMerge
  import opened Requests

  // ---------------------------------------------------------------- the two comparators

  /** Where the profile-tile comparator places an entry: by its date, or by its URL when the date does not parse. */
  function TileRank(e: Entry): Rank
  {
    match ParseDate(e.info.date)
    case Some(d) => Dated(d)
    case None => Undated(e.url)
  }

  /** Where the final comparator places an album: by its date, or by its title when the date does not parse. */
  function AlbumRank(a: Album): Rank
  {
    match ParseDate(a.date)
    case Some(d) => Dated(d)
    case None => Undated(a.title)
  }

  /** The `less` closure passed to `sort.SliceStable` for the profile entries, as written. */
  predicate TileLess(x: Entry, y: Entry)
  {
    var ti, tj := ParseDate(x.info.date), ParseDate(y.info.date);
    if ti.Some? && tj.Some? then Earlier(tj.value, ti.value)
    else if ti.Some? then true
    else if tj.Some? then false
    else StrLess(x.url, y.url)
  }

  /** The `less` closure passed to `sort.SliceStable` for the albums, as written. */
  predicate AlbumLess(x: Album, y: Album)
  {
    var ti, tj := ParseDate(x.date), ParseDate(y.date);
    if ti.Some? && tj.Some? then Earlier(tj.value, ti.value)
    else if ti.Some? then true
    else if tj.Some? then false
    else StrLess(x.title, y.title)
  }

  /** The tile comparator is the rank order on tile ranks. */
  lemma TileLessIsBefore(x: Entry, y: Entry)
    ensures TileLess(x, y) <==> Before(TileRank(x), TileRank(y))
  {
  }

  /** The album comparator is the rank order on album ranks. */
  lemma AlbumLessIsBefore(x: Album, y: Album)
    ensures AlbumLess(x, y) <==> Before(AlbumRank(x), AlbumRank(y))
  {
  }

  /**
   * The profile entries after the sort: the same entries, those with a
   * parseable date first and newest first, the rest by URL, and entries
   * the comparator cannot tell apart in their scan order.
   */
  lemma SortedEntries(entries: seq<Entry>)
    ensures var r := StableSort(entries, TileRank);
      && multiset(r) == multiset(entries)
      && Stable(entries, r, TileRank)
      && (forall i, j :: 0 <= i < j < |r| ==>
            && (ParseDate(r[j].info.date).Some? ==> ParseDate(r[i].info.date).Some?)
            && (ParseDate(r[i].info.date).Some? && ParseDate(r[j].info.date).Some? ==>
                  !Earlier(ParseDate(r[i].info.date).value, ParseDate(r[j].info.date).value))
            && (ParseDate(r[i].info.date).None? && ParseDate(r[j].info.date).None? ==> !StrLess(r[j].url, r[i].url)))
  {
    var r := StableSort(entries, TileRank);
    StableSortCorrect(entries, TileRank);
    forall i, j | 0 <= i < j < |r|
      ensures ParseDate(r[j].info.date).Some? ==> ParseDate(r[i].info.date).Some?
      ensures ParseDate(r[i].info.date).Some? && ParseDate(r[j].info.date).Some? ==>
                !Earlier(ParseDate(r[i].info.date).value, ParseDate(r[j].info.date).value)
      ensures ParseDate(r[i].info.date).None? && ParseDate(r[j].info.date).None? ==> !StrLess(r[j].url, r[i].url)
    {
      SortedShape(r, TileRank, i, j);
    }
  }

  /**
   * The albums after the final sort: the same albums, those with a
   * parseable date first and newest first, the rest by title, and albums
   * the comparator cannot tell apart in the order they were added.
   */
  lemma SortedAlbums(albums: seq<Album>)
    ensures var r := StableSort(albums, AlbumRank);
      && multiset(r) == multiset(albums)
      && Stable(albums, r, AlbumRank)
      && (forall i, j :: 0 <= i < j < |r| ==>
            && (ParseDate(r[j].date).Some? ==> ParseDate(r[i].date).Some?)
            && (ParseDate(r[i].date).Some? && ParseDate(r[j].date).Some? ==>
                  !Earlier(ParseDate(r[i].date).value, ParseDate(r[j].date).value))
            && (ParseDate(r[i].date).None? && ParseDate(r[j].date).None? ==> !StrLess(r[j].title, r[i].title)))
  {
    var r := StableSort(albums, AlbumRank);
    StableSortCorrect(albums, AlbumRank);
    forall i, j | 0 <= i < j < |r|
      ensures ParseDate(r[j].date).Some? ==> ParseDate(r[i].date).Some?
      ensures ParseDate(r[i].date).Some? && ParseDate(r[j].date).Some? ==>
                !Earlier(ParseDate(r[i].date).value, ParseDate(r[j].date).value)
      ensures ParseDate(r[i].date).None? && ParseDate(r[j].date).None? ==> !StrLess(r[j].title, r[i].title)
    {
      SortedShape(r, AlbumRank, i, j);
    }
  }

  /** `sort.SliceStable(entries, …)` on a copy of the entries in an array. */
  method SortEntries(entries: seq<Entry>) returns (sorted: seq<Entry>)
    ensures sorted == StableSort(entries, TileRank)
  {
    var a := new Entry[|entries|](i requires 0 <= i < |entries| => entries[i]);
    assert a[..] == entries;
    SortInPlace(a, TileRank);
    sorted := a[..];
  }

  // ---------------------------------------------------------------- the dispatch loop, as a function

  /** The state the dispatch loop works on: the shared `prelim` and `seen` maps, the requests made, and `count`. */
  datatype Walk = Walk(prelim: map<string, PrelimInfo>, seen: set<string>, dispatched: seq<string>, count: nat)

  /**
   * The dispatch loop from state `w` over `entries`: it stops once `count`
   * reaches a positive `limit`; otherwise it records the entry's information
   * under its URL, skips a URL already seen, and dispatches a new one.
   */
  function Visit(entries: seq<Entry>, limit: int, w: Walk): Walk
  {
    if entries == [] || (limit > 0 && w.count >= limit) then w
    else
      var e := entries[0];
      var p := w.prelim[e.url := e.info];
      if e.url in w.seen then Visit(entries[1..], limit, w.(prelim := p))
      else Visit(entries[1..], limit, Walk(p, w.seen + {e.url}, w.dispatched + [e.url], w.count + 1))
  }

  /** How many entries the loop looks at before it stops. */
  function Visited(entries: seq<Entry>, limit: int, w: Walk): (n: nat)
    ensures n <= |entries|
  {
    if entries == [] || (limit > 0 && w.count >= limit) then 0
    else
      var e := entries[0];
      if e.url in w.seen then 1 + Visited(entries[1..], limit, w.(prelim := w.prelim[e.url := e.info]))
      else 1 + Visited(entries[1..], limit, Walk(w.prelim[e.url := e.info], w.seen + {e.url}, w.dispatched + [e.url], w.count + 1))
  }

  /** The URLs of the entries, in order. */
  function Urls(entries: seq<Entry>): (r: seq<string>)
    ensures |r| == |entries|
    ensures forall k :: 0 <= k < |r| ==> r[k] == entries[k].url
  {
    if entries == [] then [] else [entries[0].url] + Urls(entries[1..])
  }

  /** The first occurrence of each URL not yet in `seen`, in order. */
  function Fresh(urls: seq<string>, seen: set<string>): seq<string>
  {
    if urls == [] then []
    else if urls[0] in seen then Fresh(urls[1..], seen)
    else [urls[0]] + Fresh(urls[1..], seen + {urls[0]})
  }

  /** At most the first `n` elements. */
  function Upto<T>(s: seq<T>, n: nat): (r: seq<T>)
    ensures |r| == if |s| <= n then |s| else n
    ensures r == s[..|r|]
  {
    if |s| <= n then s else s[..n]
  }

  /** `prelim` after writing each entry's information under its URL, in order. */
  function Record(prelim: map<string, PrelimInfo>, entries: seq<Entry>): map<string, PrelimInfo>
    decreases |entries|
  {
    if entries == [] then prelim else Record(prelim[entries[0].url := entries[0].info], entries[1..])
  }

  // ---------------------------------------------------------------- what the loop does

  /** The URLs `Fresh` picks are distinct, new, and exactly the URLs not seen before. */
  lemma {:induction false} FreshDistinct(urls: seq<string>, seen: set<string>)
    ensures NoDup(Fresh(urls, seen))
    ensures Elements(Fresh(urls, seen)) == Elements(urls) - seen
  {
    if urls != [] {
      var u := urls[0];
      var rest := urls[1..];
      assert Elements(urls) == {u} + Elements(rest);
      if u in seen {
        FreshDistinct(rest, seen);
      } else {
        FreshDistinct(rest, seen + {u});
        var f := Fresh(rest, seen + {u});
        assert u !in Elements(f);
        NoDupCons(u, f);
        assert Elements([u] + f) == {u} + Elements(f);
      }
    }
  }

  lemma NoDupCons<T>(x: T, s: seq<T>)
    requires NoDup(s) && x !in Elements(s)
    ensures NoDup([x] + s)
  {
    var r := [x] + s;
    forall i, j | 0 <= i < j < |r|
      ensures r[i] != r[j]
    {
      if i == 0 {
        assert r[j] == s[j - 1];
      } else {
        assert r[i] == s[i - 1] && r[j] == s[j - 1];
      }
    }
  }

  /** A prefix of a duplicate-free sequence is duplicate-free, with fewer elements. */
  lemma UptoDistinct<T>(s: seq<T>, n: nat)
    requires NoDup(s)
    ensures NoDup(Upto(s, n)) && Elements(Upto(s, n)) <= Elements(s)
  {
    var r := Upto(s, n);
    forall i, j | 0 <= i < j < |r|
      ensures r[i] != r[j]
    {
      assert r[i] == s[i] && r[j] == s[j];
    }
  }

  /**
   * The loop appends to the requests made exactly the first distinct URLs it
   * has not seen, as many as `limit` allows (all of them when `limit` is not
   * positive), and counts each one.
   */
  lemma {:induction false} VisitDispatches(entries: seq<Entry>, limit: int, w: Walk)
    requires limit > 0 ==> w.count <= limit
    ensures var r := Visit(entries, limit, w);
      var newUrls := Fresh(Urls(entries), w.seen);
      && r.dispatched == w.dispatched + (if limit > 0 then Upto(newUrls, limit - w.count) else newUrls)
      && r.count == w.count + |r.dispatched| - |w.dispatched|
  {
    if entries != [] && !(limit > 0 && w.count >= limit) {
      var e := entries[0];
      FreshStep(entries, w.seen);
      if e.url in w.seen {
        VisitDispatches(entries[1..], limit, w.(prelim := w.prelim[e.url := e.info]));
      } else {
        var w' := Walk(w.prelim[e.url := e.info], w.seen + {e.url}, w.dispatched + [e.url], w.count + 1);
        VisitDispatches(entries[1..], limit, w');
        if limit > 0 {
          UptoCons(e.url, Fresh(Urls(entries[1..]), w'.seen), limit - w'.count);
        }
      }
    } else if entries == [] {
      assert Urls(entries) == [];
    } else {
      assert Upto(Fresh(Urls(entries), w.seen), 0) == [];
    }
  }

  /** `Fresh` over the URLs of a non-empty list, one entry at a time. */
  lemma FreshStep(entries: seq<Entry>, seen: set<string>)
    requires entries != []
    ensures Fresh(Urls(entries), seen) ==
      if entries[0].url in seen then Fresh(Urls(entries[1..]), seen)
      else [entries[0].url] + Fresh(Urls(entries[1..]), seen + {entries[0].url})
  {
    var urls := Urls(entries);
    assert urls[0] == entries[0].url && urls[1..] == Urls(entries[1..]);
  }

  /** One more allowed element takes one more element of the sequence. */
  lemma UptoCons<T>(x: T, s: seq<T>, n: nat)
    ensures Upto([x] + s, n + 1) == [x] + Upto(s, n)
  {
    assert ([x] + s)[1..] == s;
  }

  /** `seen` grows by exactly the URLs dispatched. */
  lemma {:induction false} VisitSeen(entries: seq<Entry>, limit: int, w: Walk)
    ensures var r := Visit(entries, limit, w);
      && |w.dispatched| <= |r.dispatched| && r.dispatched[..|w.dispatched|] == w.dispatched
      && r.seen == w.seen + Elements(r.dispatched[|w.dispatched|..])
  {
    if entries != [] && !(limit > 0 && w.count >= limit) {
      var e := entries[0];
      if e.url in w.seen {
        VisitSeen(entries[1..], limit, w.(prelim := w.prelim[e.url := e.info]));
      } else {
        var w' := Walk(w.prelim[e.url := e.info], w.seen + {e.url}, w.dispatched + [e.url], w.count + 1);
        VisitSeen(entries[1..], limit, w');
        var r := Visit(entries, limit, w);
        var tail := r.dispatched[|w'.dispatched|..];
        assert r.dispatched[..|w'.dispatched|] == w.dispatched + [e.url];
        assert r.dispatched[..|w.dispatched|] == (w.dispatched + [e.url])[..|w.dispatched|];
        assert r.dispatched[|w.dispatched|] == e.url;
        assert r.dispatched[|w.dispatched|..] == [e.url] + tail;
        assert Elements([e.url] + tail) == {e.url} + Elements(tail);
      }
    } else {
      assert w.dispatched[|w.dispatched|..] == [];
      assert w.dispatched[..|w.dispatched|] == w.dispatched;
    }
  }

  /**
   * The promises of the loop: with a positive limit at most `limit` albums
   * are requested, no URL is requested twice or after it was seen, and
   * `seen` holds exactly the URLs requested.
   */
  lemma VisitKeepsValid(entries: seq<Entry>, limit: int, w: Walk)
    requires w.count == 0 && NoDup(w.dispatched) && Elements(w.dispatched) == w.seen
    ensures var r := Visit(entries, limit, w);
      && (limit > 0 ==> |r.dispatched| - |w.dispatched| <= limit)
      && NoDup(r.dispatched) && Elements(r.dispatched) == r.seen
  {
    var r := Visit(entries, limit, w);
    var newUrls := Fresh(Urls(entries), w.seen);
    VisitDispatches(entries, limit, w);
    VisitSeen(entries, limit, w);
    FreshDistinct(Urls(entries), w.seen);
    var added := if limit > 0 then Upto(newUrls, limit) else newUrls;
    UptoDistinct(newUrls, if limit > 0 then limit else 0);
    assert r.dispatched == w.dispatched + added;
    assert r.dispatched[|w.dispatched|..] == added;
    AppendDistinct(w.dispatched, added);
  }

  /** Two duplicate-free sequences with no element in common append to a duplicate-free one. */
  lemma AppendDistinct<T>(a: seq<T>, b: seq<T>)
    requires NoDup(a) && NoDup(b) && Elements(a) !! Elements(b)
    ensures NoDup(a + b) && Elements(a + b) == Elements(a) + Elements(b)
  {
    var r := a + b;
    forall i, j | 0 <= i < j < |r|
      ensures r[i] != r[j]
    {
      if j < |a| {
        assert r[i] == a[i] && r[j] == a[j];
      } else if i >= |a| {
        assert r[i] == b[i - |a|] && r[j] == b[j - |a|];
      } else {
        assert r[i] in Elements(a) && r[j] in Elements(b);
      }
    }
  }

  /** The loop stops early only when `count` has reached a positive `limit`. */
  lemma {:induction false} VisitedStops(entries: seq<Entry>, limit: int, w: Walk)
    ensures Visited(entries, limit, w) < |entries| ==> limit > 0 && Visit(entries, limit, w).count >= limit
  {
    if entries != [] && !(limit > 0 && w.count >= limit) {
      var e := entries[0];
      if e.url in w.seen {
        VisitedStops(entries[1..], limit, w.(prelim := w.prelim[e.url := e.info]));
      } else {
        VisitedStops(entries[1..], limit, Walk(w.prelim[e.url := e.info], w.seen + {e.url}, w.dispatched + [e.url], w.count + 1));
      }
    }
  }

  /** `prelim` ends up with the information of every entry the loop looked at, later entries overwriting earlier ones. */
  lemma {:induction false} VisitRecords(entries: seq<Entry>, limit: int, w: Walk)
    ensures Visit(entries, limit, w).prelim == Record(w.prelim, entries[..Visited(entries, limit, w)])
  {
    if entries != [] && !(limit > 0 && w.count >= limit) {
      var e := entries[0];
      var p := w.prelim[e.url := e.info];
      var w' := if e.url in w.seen then w.(prelim := p) else Walk(p, w.seen + {e.url}, w.dispatched + [e.url], w.count + 1);
      VisitRecords(entries[1..], limit, w');
      var n := Visited(entries[1..], limit, w');
      assert entries[..n + 1][0] == e && entries[..n + 1][1..] == entries[1..][..n];
    }
  }

  /** After recording, an entry's URL maps to its information unless a later entry has the same URL. */
  lemma {:induction false} RecordLast(prelim: map<string, PrelimInfo>, entries: seq<Entry>, k: nat)
    requires k < |entries|
    requires forall m :: k < m < |entries| ==> entries[m].url != entries[k].url
    ensures entries[k].url in Record(prelim, entries) && Record(prelim, entries)[entries[k].url] == entries[k].info
    decreases |entries|
  {
    var p := prelim[entries[0].url := entries[0].info];
    if k == 0 {
      RecordElsewhere(p, entries[1..], entries[0].url);
    } else {
      RecordLast(p, entries[1..], k - 1);
    }
  }

  /** Recording entries none of which has URL `u` leaves `u`'s information as it was. */
  lemma {:induction false} RecordElsewhere(prelim: map<string, PrelimInfo>, entries: seq<Entry>, u: string)
    requires forall m :: 0 <= m < |entries| ==> entries[m].url != u
    ensures (u in Record(prelim, entries)) == (u in prelim)
    ensures u in prelim ==> Record(prelim, entries)[u] == prelim[u]
    decreases |entries|
  {
    if entries != [] {
      RecordElsewhere(prelim[entries[0].url := entries[0].info], entries[1..], u);
    }
  }

  // ---------------------------------------------------------------- the crawl

  /** What the callback of the album endpoint adds to its response: the album read, as it is, or nothing. */
  function Found(found: Option<Album>): (r: seq<Album>)
    ensures |r| <= 1
    ensures found.None? ==> r == []
  {
    match found
    case Some(a) => [a]
    case None => []
  }

  /** Where no tile left information under the album's URL, both album callbacks add the same. */
  lemma ArrivalUnmerged(found: Option<Album>, prelim: map<string, PrelimInfo>)
    requires found.Some? ==> found.value.url !in prelim
    ensures Arrival(found, prelim) == Found(found)
  {
    if found.Some? {
      MergeWithoutEntry(found.value, prelim);
    }
  }

  /** The profile callback on a page: the dispatch loop over its tiles' entries, newest first. */
  function ProfileVisit(doc: Document, base: string, join: (string, string) -> string, limit: int, w: Walk): Walk
  {
    Visit(StableSort(TileEntries(SelectTiles(doc), base, join), TileRank), limit, w)
  }

  /** What the album callback adds to the response: the album read, merged with its tile's information, or nothing. */
  function Arrival(found: Option<Album>, prelim: map<string, PrelimInfo>): (r: seq<Album>)
    ensures |r| <= 1
    ensures found.None? ==> r == []
    ensures found.Some? ==> found.value.url in prelim || r == [found.value]
  {
    match found
    case Some(a) => [MergeFrom(a, prelim)]
    case None => []
  }

  /** The state the handler's callbacks share. */
  class Crawl {
    var prelim: map<string, PrelimInfo>
    var seen: set<string>
    var dispatched: seq<string>
    var albums: seq<Album>

    /** `seen` holds exactly the URLs requested, and none was requested twice. */
    predicate Valid()
      reads this
    {
      NoDup(dispatched) && Elements(dispatched) == seen
    }

    constructor()
      ensures prelim == map[] && seen == {} && dispatched == [] && albums == []
      ensures Valid()
    {
      prelim := map[];
      seen := {};
      dispatched := [];
      albums := [];
    }

    /** The dispatch loop of the profile callback, over the sorted entries. */
    method Dispatch(entries: seq<Entry>, albumLimit: int)
      requires Valid()
      modifies this
      ensures var w := Visit(entries, albumLimit, Walk(old(prelim), old(seen), old(dispatched), 0));
        prelim == w.prelim && seen == w.seen && dispatched == w.dispatched
      ensures albums == old(albums)
      ensures Valid()
      ensures albumLimit > 0 ==> |dispatched| - |old(dispatched)| <= albumLimit
    {
      ghost var start := Walk(prelim, seen, dispatched, 0);
      VisitKeepsValid(entries, albumLimit, start);
      var count := 0;
      var i := 0;
      while i < |entries|
        invariant 0 <= i <= |entries|
        invariant Visit(entries[i..], albumLimit, Walk(prelim, seen, dispatched, count)) == Visit(entries, albumLimit, start)
        invariant albums == old(albums)
      {
        if albumLimit > 0 && count >= albumLimit {
          break;
        }
        var e := entries[i];
        assert entries[i..][0] == e && entries[i..][1..] == entries[i + 1..];
        prelim := prelim[e.url := e.info];
        if e.url in seen {
          i := i + 1;
          continue;
        }
        seen := seen + {e.url};
        count := count + 1;
        dispatched := dispatched + [e.url];
        i := i + 1;
      }
    }

    /** The profile callback: scan the tiles, sort the entries, dispatch the albums. */
    method Profile(page: Page, join: (string, string) -> string, albumLimit: int)
      requires Valid()
      modifies this
      ensures page.doc.None? ==> prelim == old(prelim) && seen == old(seen) && dispatched == old(dispatched)
      ensures page.doc.Some? ==>
        var w := ProfileVisit(page.doc.value, page.url, join, albumLimit, Walk(old(prelim), old(seen), old(dispatched), 0));
        prelim == w.prelim && seen == w.seen && dispatched == w.dispatched
      ensures albums == old(albums)
      ensures Valid()
    {
      if page.doc.None? {
        return;
      }
      var entries := ScanTiles(SelectTiles(page.doc.value), page.url, join);
      entries := SortEntries(entries);
      Dispatch(entries, albumLimit);
    }

    /** The router: a fetched page goes to the profile callback or to the album callback, by its markers. */
    method Route(page: Page, join: (string, string) -> string, albumLimit: int, photoLimit: int)
      requires Valid()
      modifies this
      ensures Valid()
      ensures page.doc.None? ==>
        prelim == old(prelim) && seen == old(seen) && dispatched == old(dispatched) && albums == old(albums)
      ensures page.doc.Some? && Classify(page.doc.value) == ToProfile ==>
        var w := ProfileVisit(page.doc.value, page.url, join, albumLimit, Walk(old(prelim), old(seen), old(dispatched), 0));
        prelim == w.prelim && seen == w.seen && dispatched == w.dispatched && albums == old(albums)
      ensures page.doc.Some? && Classify(page.doc.value) == ToAlbum ==>
        && prelim == old(prelim) && seen == old(seen) && dispatched == old(dispatched)
        && albums == old(albums) + Arrival(AlbumOf(page, join, photoLimit), prelim)
    {
      if page.doc.None? {
        return;
      }
      if Classify(page.doc.value) == ToProfile {
        Profile(page, join, albumLimit);
      } else {
        Receive(page, join, photoLimit);
      }
    }

    /** The album callback: read the page, then add what it yields to the response. */
    method Receive(page: Page, join: (string, string) -> string, photoLimit: int)
      modifies this
      ensures albums == old(albums) + Arrival(AlbumOf(page, join, photoLimit), prelim)
      ensures prelim == old(prelim) && seen == old(seen) && dispatched == old(dispatched)
    {
      var album := ParseAlbum(page, join, photoLimit);
      Add(album);
    }

    /** The end of the album callback: merge the tile information into the album read and append it under the lock. */
    method Add(found: Option<Album>)
      modifies this
      ensures albums == old(albums) + Arrival(found, prelim)
      ensures prelim == old(prelim) && seen == old(seen) && dispatched == old(dispatched)
    {
      if found.Some? {
        var merged := MergePrelim(found.value, prelim);
        albums := albums + [merged];
      }
    }

    /** The callback of the album endpoint: read the page and add the album without any merge. */
    method ReceiveSingle(page: Page, join: (string, string) -> string, photoLimit: int)
      modifies this
      ensures albums == old(albums) + Found(AlbumOf(page, join, photoLimit))
      ensures prelim == old(prelim) && seen == old(seen) && dispatched == old(dispatched)
    {
      var album := ParseAlbum(page, join, photoLimit);
      AddAsIs(album);
    }

    /** The end of the album endpoint's callback: append the album read under the lock. */
    method AddAsIs(found: Option<Album>)
      modifies this
      ensures albums == old(albums) + Found(found)
      ensures prelim == old(prelim) && seen == old(seen) && dispatched == old(dispatched)
    {
      if found.Some? {
        albums := albums + [found.value];
      }
    }

    /** The final `sort.SliceStable(resp.Albums, …)`. */
    method SortAlbums()
      modifies this
      ensures albums == StableSort(old(albums), AlbumRank)
      ensures prelim == old(prelim) && seen == old(seen) && dispatched == old(dispatched)
    {
      var a := new Album[|albums|](i requires 0 <= i < |albums| reads this => albums[i]);
      assert a[..] == albums;
      SortInPlace(a, AlbumRank);
      albums := a[..];
    }
  }
}
