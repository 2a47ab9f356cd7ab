/**
 * The first half of `parseProfile` (main.go:600-650): choosing the album
 * tiles of a profile page and reading, from each, the album link and the
 * preliminary date, photo count and view count.
 */
module Tiles {
  import opened Base
  import opened GoText
  import opened CzDate
  import opened Records

  /** `cr.JoinURL` is applied to root-relative links only; `join(base, link)` stands for it. */
  function Resolve(link: string, base: string, join: (string, string) -> string): string
  {
    if HasPrefix(link, "/") then join(base, link) else link
  }

  /** `li.list-alb`, or the broader selector when that matches nothing. */
  function SelectTiles(doc: Document): seq<Tile>
  {
    if |doc.listTiles| == 0 then doc.altTiles else doc.listTiles
  }

  /** `Find("a.thumbnail").AttrOr("href", "")`: the href of the first thumbnail anchor, or "". */
  function ThumbnailHref(anchors: seq<Anchor>): string
  {
    if anchors == [] then []
    else if anchors[0].thumbnail then anchors[0].href
    else ThumbnailHref(anchors[1..])
  }

  /** The thumbnail href is that of the first anchor with class `thumbnail`; there is none without one. */
  lemma {:induction false} ThumbnailHrefFirst(anchors: seq<Anchor>, k: nat)
    requires k <= |anchors|
    requires forall l :: 0 <= l < k ==> !anchors[l].thumbnail
    ensures k == |anchors| ==> ThumbnailHref(anchors) == []
    ensures k < |anchors| && anchors[k].thumbnail ==> ThumbnailHref(anchors) == anchors[k].href
  {
    if k > 0 {
      ThumbnailHrefFirst(anchors[1..], k - 1);
    }
  }

  /** `Find("a").AttrOr("href", "")`: the href of the first anchor, or "". */
  function FirstHref(anchors: seq<Anchor>): string
  {
    if anchors == [] then [] else anchors[0].href
  }

  /** The album link of a tile: `data-url`, else the thumbnail's href, else the first anchor's, each trimmed. */
  function TileLink(t: Tile): string
  {
    var fromData := TrimSpace(t.dataUrl);
    var fromThumbnail := TrimSpace(ThumbnailHref(t.anchors));
    if fromData != [] then fromData
    else if fromThumbnail != [] then fromThumbnail
    else TrimSpace(FirstHref(t.anchors))
  }

  /** A tile has no link exactly when its `data-url`, its thumbnail href and its first href are all blank. */
  lemma TileLinkEmpty(t: Tile)
    ensures TileLink(t) == [] <==>
      TrimSpace(t.dataUrl) == [] && TrimSpace(ThumbnailHref(t.anchors)) == [] && TrimSpace(FirstHref(t.anchors)) == []
  {
  }

  /** A count read with `Sscanf("%d")` from trimmed text into a variable that starts at 0. */
  function CountOf(text: string): (n: int)
    ensures n != 0 ==> ScanInt(TrimSpace(text)) == Some(n)
    ensures ScanInt(TrimSpace(text)).Some? ==> n == ScanInt(TrimSpace(text)).value
    ensures ScanInt(TrimSpace(text)).None? ==> n == 0
  {
    ScanIntInto(TrimSpace(text), 0)
  }

  /** A count written as a decimal integer, with white space around it and any non-digit text after it, reads back. */
  lemma CountOfReads(n: int, left: string, tail: string, right: string)
    requires MinInt64 <= n <= MaxInt64
    requires AllSpace(left) && AllSpace(right)
    requires tail == [] || (!IsDigit(tail[0]) && !IsSpace(tail[|tail| - 1]))
    ensures CountOf(left + FormatInt(n) + tail + right) == n
  {
    var core := FormatInt(n) + tail;
    var digits := DecimalString(if n < 0 then -n else n);
    assert core[0] == FormatInt(n)[0];
    assert IsDigit(digits[|digits| - 1]);
    assert tail == [] ==> core[|core| - 1] == digits[|digits| - 1];
    assert left + FormatInt(n) + tail + right == left + core + right;
    TrimSpacePadded(left, core, right);
    ScanIntRoundTrip(n, tail);
  }

  /** A count written bare reads back. */
  lemma CountOfFormat(n: int)
    requires MinInt64 <= n <= MaxInt64
    ensures CountOf(FormatInt(n)) == n
  {
    assert [] + FormatInt(n) + [] + [] == FormatInt(n);
    CountOfReads(n, [], [], []);
  }

  /** The date shown in a tile's paragraph: its trimmed text up to the first `|`, trimmed again. */
  function InfoDate(text: string): string
  {
    var full := TrimSpace(text);
    if full != [] then TrimSpace(BeforeFirst(full, '|')) else []
  }

  /** The date read from a paragraph is trimmed and holds no `|`. */
  lemma InfoDateClean(text: string)
    ensures '|' !in InfoDate(text) && TrimSpace(InfoDate(text)) == InfoDate(text)
  {
    var full := TrimSpace(text);
    if full != [] {
      TrimSpaceKeeps(BeforeFirst(full, '|'), '|');
      TrimSpaceIdempotent(BeforeFirst(full, '|'));
    }
  }

  /**
   * A date written between white space, optionally followed by `|` and more
   * text, is read back exactly.
   */
  lemma InfoDateReads(shown: string, left: string, mid: string, tail: string, right: string)
    requires shown != [] && !IsSpace(shown[0]) && !IsSpace(shown[|shown| - 1]) && '|' !in shown
    requires AllSpace(left) && AllSpace(mid) && AllSpace(right)
    requires tail == [] || (tail[0] == '|' && !IsSpace(tail[|tail| - 1]))
    ensures InfoDate(left + shown + mid + tail + right) == shown
  {
    var text := left + shown + mid + tail + right;
    if tail == [] {
      assert AllSpace(mid + right);
      assert text == left + shown + (mid + right);
      TrimSpacePadded(left, shown, mid + right);
      BeforeFirstAt(shown, [], '|');
      assert shown + [] == shown;
      TrimSpaceOfTrimmed(shown);
    } else {
      var core := shown + mid + tail;
      assert core[0] == shown[0] && core[|core| - 1] == tail[|tail| - 1];
      assert text == left + core + right;
      TrimSpacePadded(left, core, right);
      DateBeforeBar(shown, mid, tail);
    }
  }

  /** The text before the first `|` of a trimmed date, white space and a `|` section is the date. */
  lemma DateBeforeBar(shown: string, mid: string, tail: string)
    requires Trimmed(shown) && '|' !in shown && AllSpace(mid)
    requires tail != [] && tail[0] == '|'
    ensures TrimSpace(BeforeFirst(shown + mid + tail, '|')) == shown
  {
    assert '|' !in mid;
    assert '|' !in shown + mid;
    BeforeFirstAt(shown + mid, tail, '|');
    TrimTrailing(shown, mid);
  }

  /** A trimmed string followed by white space trims back to itself. */
  lemma TrimTrailing(shown: string, mid: string)
    requires Trimmed(shown) && AllSpace(mid)
    ensures TrimSpace(shown + mid) == shown
  {
    TrimSpacePadded([], shown, mid);
    assert [] + shown + mid == shown + mid;
  }

  /** The preliminary information of a tile, from its first paragraph. */
  function TileInfo(t: Tile): PrelimInfo
  {
    if t.paras == [] then PrelimInfo([], 0, 0)
    else
      var p := t.paras[0];
      var photos := if |p.spans| > 0 then CountOf(p.spans[0]) else 0;
      var views := if |p.spans| > 1 then CountOf(p.spans[1]) else 0;
      PrelimInfo(InfoDate(p.text), photos, views)
  }

  /** One iteration of the tile loop: the entry a tile yields, if it has a link. */
  function TileEntry(t: Tile, base: string, join: (string, string) -> string): Option<Entry>
  {
    var link := TileLink(t);
    if link == [] then None else Some(Entry(Resolve(link, base, join), TileInfo(t)))
  }

  /** The entries of a run of tiles, in tile order. */
  function TileEntries(tiles: seq<Tile>, base: string, join: (string, string) -> string): (r: seq<Entry>)
    ensures |r| <= |tiles|
  {
    if tiles == [] then []
    else
      var last := TileEntry(tiles[|tiles| - 1], base, join);
      TileEntries(tiles[..|tiles| - 1], base, join) + (if last.Some? then [last.value] else [])
  }

  /** Extending the run by one tile adds that tile's entry, if it has one, at the end. */
  lemma TileEntriesStep(tiles: seq<Tile>, i: nat, base: string, join: (string, string) -> string)
    requires i < |tiles|
    ensures TileEntries(tiles[..i + 1], base, join) ==
      TileEntries(tiles[..i], base, join) + (if TileEntry(tiles[i], base, join).Some? then [TileEntry(tiles[i], base, join).value] else [])
  {
    assert tiles[..i + 1][..i] == tiles[..i];
  }

  /** The link lookup of one tile, falling back from `data-url` to the thumbnail's href to the first href. */
  method ReadLink(t: Tile) returns (link: string)
    ensures link == TileLink(t)
  {
    link := TrimSpace(t.dataUrl);
    if link == [] {
      link := TrimSpace(ThumbnailHref(t.anchors));
      if link == [] {
        link := TrimSpace(FirstHref(t.anchors));
      }
    }
  }

  /** The `Each` callback on one tile: its link, resolved, and its information, or nothing without a link. */
  method ReadTile(t: Tile, base: string, join: (string, string) -> string) returns (found: Option<Entry>)
    ensures found == TileEntry(t, base, join)
  {
    var link := ReadLink(t);
    if link == [] {
      return None;
    }
    if HasPrefix(link, "/") {
      link := join(base, link);
    }
    found := Some(Entry(link, TileInfo(t)));
  }

  /** The tile loop of `parseProfile`: one entry per tile that has a link, in tile order. */
  method ScanTiles(tiles: seq<Tile>, base: string, join: (string, string) -> string) returns (entries: seq<Entry>)
    ensures entries == TileEntries(tiles, base, join)
  {
    entries := [];
    var i := 0;
    while i < |tiles|
      invariant 0 <= i <= |tiles|
      invariant entries == TileEntries(tiles[..i], base, join)
    {
      var found := ReadTile(tiles[i], base, join);
      TileEntriesStep(tiles, i, base, join);
      if found.Some? {
        entries := entries + [found.value];
      }
      i := i + 1;
    }
    assert tiles[..|tiles|] == tiles;
  }

  /** The information of a tile whose first paragraph shows a written date and whose spans hold the counts. */
  lemma TileInfoReads(t: Tile, d: Date, k: nat, left: string, mid: string, tail: string, right: string, photos: int, views: int)
    requires ValidDate(d) && k < |Layouts|
    requires AllSpace(left) && AllSpace(mid) && AllSpace(right)
    requires tail == [] || (tail[0] == '|' && !IsSpace(tail[|tail| - 1]))
    requires MinInt64 <= photos <= MaxInt64 && MinInt64 <= views <= MaxInt64
    requires t.paras != [] && t.paras[0].text == left + Format(d, k) + mid + tail + right
    requires |t.paras[0].spans| >= 2 && t.paras[0].spans[0] == FormatInt(photos) && t.paras[0].spans[1] == FormatInt(views)
    ensures TileInfo(t) == PrelimInfo(Format(d, k), photos, views)
  {
    FormatShape(d, k);
    InfoDateReads(Format(d, k), left, mid, tail, right);
    CountOfFormat(photos);
    CountOfFormat(views);
  }

  /**
   * Reading back a tile: a tile whose link is `url` (not root-relative), whose
   * first paragraph shows a date in one of the four layouts, optionally
   * followed by `|` and more text, and whose first two spans hold the counts,
   * yields exactly that entry, and its date parses back to the date shown.
   */
  lemma TileReadsBack(t: Tile, url: string, base: string, join: (string, string) -> string,
                      d: Date, k: nat, left: string, mid: string, tail: string, right: string, photos: int, views: int)
    requires TrimSpace(url) == url && url != [] && !HasPrefix(url, "/") && t.dataUrl == url
    requires ValidDate(d) && k < |Layouts|
    requires AllSpace(left) && AllSpace(mid) && AllSpace(right)
    requires tail == [] || (tail[0] == '|' && !IsSpace(tail[|tail| - 1]))
    requires MinInt64 <= photos <= MaxInt64 && MinInt64 <= views <= MaxInt64
    requires t.paras != [] && t.paras[0].text == left + Format(d, k) + mid + tail + right
    requires |t.paras[0].spans| >= 2 && t.paras[0].spans[0] == FormatInt(photos) && t.paras[0].spans[1] == FormatInt(views)
    ensures TileEntry(t, base, join) == Some(Entry(url, PrelimInfo(Format(d, k), photos, views)))
    ensures ParseDate(TileInfo(t).date) == Some(d)
  {
    TileInfoReads(t, d, k, left, mid, tail, right, photos, views);
    assert TileLink(t) == url;
    FormatRoundTrip(d, k);
  }
}
