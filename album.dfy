/**
 * `parseAlbum` (main.go:463-592, and its copy without the merge at
 * main.go:124-218): the header fields of an album page and its photos,
 * gathered in three tiers under a shared photo limit.
 */
module AlbumPage {
  import opened Base
  import opened GoText
  import opened CzDate
  import opened Records
  import opened Tiles

  // ---------------------------------------------------------------- the two patterns

  /** The fallback patterns: `/Photo/\d+/(\d+)` for anchors and `/photos/(\d+)_` for images. */
  datatype Pattern = PhotoHref | PhotoImage

  /** The literal each pattern starts with. */
  function Lead(p: Pattern): string
  {
    match p
    case PhotoHref => "/Photo/"
    case PhotoImage => "/photos/"
  }

  /** The rest of `/Photo/\d+/(\d+)` after its literal: digits, `/`, and the captured digits. */
  function HrefTail(t: string): (r: Option<string>)
    ensures r.Some? ==> r.value != [] && AllDigits(r.value)
  {
    var a := DigitRun(t);
    if a == 0 || a == |t| || t[a] != '/' then None
    else
      var u := t[a + 1..];
      var c := DigitRun(u);
      if c == 0 then None else Some(u[..c])
  }

  /** The rest of `/photos/(\d+)_` after its literal: the captured digits, then `_`. */
  function ImageTail(t: string): (r: Option<string>)
    ensures r.Some? ==> r.value != [] && AllDigits(r.value)
  {
    var a := DigitRun(t);
    if a == 0 || a == |t| || t[a] != '_' then None else Some(t[..a])
  }

  /**
   * The capture of a match starting at the first character of `s`, if one
   * starts there. Every `\d+` takes the longest run of digits: in both
   * patterns what follows a run is a non-digit (`/`, `_`) or the end of the
   * pattern, so a shorter run never leads to a match.
   */
  function MatchHere(p: Pattern, s: string): (r: Option<string>)
    ensures r.Some? ==> r.value != [] && AllDigits(r.value)
  {
    var lead := Lead(p);
    if !HasPrefix(s, lead) then None
    else
      match p
      case PhotoHref => HrefTail(s[|lead|..])
      case PhotoImage => ImageTail(s[|lead|..])
  }

  /** `FindStringSubmatch(s)[1]`: the capture of the leftmost match, or None when `s` has no match. */
  function Submatch(p: Pattern, s: string): (r: Option<string>)
    ensures r.Some? ==> r.value != [] && AllDigits(r.value)
    decreases |s|
  {
    if MatchHere(p, s).Some? then MatchHere(p, s)
    else if s == [] then None
    else Submatch(p, s[1..])
  }

  /** What the rest of an anchor match looks like: digits, `/`, the captured digits, and no digit after them. */
  lemma HrefTailSound(t: string) returns (album: string, rest: string)
    requires HrefTail(t).Some?
    ensures t == album + "/" + HrefTail(t).value + rest
    ensures album != [] && AllDigits(album)
    ensures rest == [] || !IsDigit(rest[0])
  {
    var a := DigitRun(t);
    var u := t[a + 1..];
    var c := DigitRun(u);
    album, rest := t[..a], u[c..];
    assert u == u[..c] + rest;
    assert t == album + [t[a]] + u;
  }

  /** Every such text is read as the rest of an anchor match, capturing the photo digits. */
  lemma HrefTailComplete(album: string, c: string, rest: string)
    requires album != [] && AllDigits(album)
    requires c != [] && AllDigits(c)
    requires rest == [] || !IsDigit(rest[0])
    ensures HrefTail(album + "/" + c + rest) == Some(c)
  {
    var u := c + rest;
    var t := album + (['/'] + u);
    assert album + "/" + c + rest == t;
    DigitRunOfDigits(album, ['/'] + u);
    assert t[|album|] == '/';
    assert t[|album| + 1..] == u;
    DigitRunOfDigits(c, rest);
    assert u[..|c|] == c;
  }

  /** A text that starts with `lead` is `lead` followed by the rest. */
  lemma LeadSplit(p: Pattern, s: string)
    requires HasPrefix(s, Lead(p))
    ensures s == Lead(p) + s[|Lead(p)|..]
  {
  }

  /** What an anchor match looks like: `/Photo/`, digits, `/`, the captured digits, and no digit after them. */
  lemma HrefMatchSound(s: string) returns (album: string, rest: string)
    requires MatchHere(PhotoHref, s).Some?
    ensures s == "/Photo/" + album + "/" + MatchHere(PhotoHref, s).value + rest
    ensures album != [] && AllDigits(album)
    ensures rest == [] || !IsDigit(rest[0])
  {
    var t := s[7..];
    album, rest := HrefTailSound(t);
    var c := HrefTail(t).value;
    LeadSplit(PhotoHref, s);
    assert MatchHere(PhotoHref, s) == HrefTail(t);
    Regroup("/Photo/", album, "/", c, rest);
  }

  /** Concatenation regrouped to the left. */
  lemma Regroup(a: string, b: string, c: string, d: string, e: string)
    ensures a + (b + c + d + e) == a + b + c + d + e
  {
  }

  /** Every such text matches at its start and captures the photo digits. */
  lemma HrefMatchComplete(album: string, c: string, rest: string)
    requires album != [] && AllDigits(album)
    requires c != [] && AllDigits(c)
    requires rest == [] || !IsDigit(rest[0])
    ensures MatchHere(PhotoHref, "/Photo/" + album + "/" + c + rest) == Some(c)
  {
    var t := album + "/" + c + rest;
    var s := "/Photo/" + album + "/" + c + rest;
    assert s == "/Photo/" + t;
    assert s[..7] == "/Photo/" && s[7..] == t;
    HrefTailComplete(album, c, rest);
  }

  /** What an image match looks like: `/photos/`, the captured digits, then `_`. */
  lemma ImageMatchSound(s: string) returns (rest: string)
    requires MatchHere(PhotoImage, s).Some?
    ensures s == "/photos/" + MatchHere(PhotoImage, s).value + "_" + rest
  {
    var t := s[8..];
    var a := DigitRun(t);
    rest := t[a + 1..];
    assert t == t[..a] + "_" + rest;
    LeadSplit(PhotoImage, s);
  }

  /** Every such text matches at its start and captures the photo digits. */
  lemma ImageMatchComplete(c: string, rest: string)
    requires c != [] && AllDigits(c)
    ensures MatchHere(PhotoImage, "/photos/" + c + "_" + rest) == Some(c)
  {
    var s := "/photos/" + c + "_" + rest;
    var t := c + "_" + rest;
    assert s[..8] == "/photos/" && s[8..] == t;
    assert t == c + ("_" + rest);
    DigitRunOfDigits(c, "_" + rest);
    assert t[..|c|] == c;
  }

  /**
   * The search finds the leftmost match: the capture is that of the first
   * position where a match starts, and there is none when no position
   * starts one.
   */
  lemma {:induction false} SubmatchLeftmost(p: Pattern, s: string) returns (i: nat)
    ensures i <= |s|
    ensures forall j :: 0 <= j < i ==> MatchHere(p, s[j..]).None?
    ensures Submatch(p, s).Some? ==> Submatch(p, s) == MatchHere(p, s[i..])
    ensures Submatch(p, s).None? ==> i == |s| && MatchHere(p, s[i..]).None?
    decreases |s|
  {
    if MatchHere(p, s).Some? {
      i := 0;
      assert s[0..] == s;
    } else if s == [] {
      i := 0;
    } else {
      var k := SubmatchLeftmost(p, s[1..]);
      i := k + 1;
      assert s[i..] == s[1..][k..];
      NoMatchShift(p, s, k);
    }
  }

  /** No match in the first `k` positions after the first character, and none at it: none in the first `k + 1`. */
  lemma NoMatchShift(p: Pattern, s: string, k: nat)
    requires s != [] && MatchHere(p, s).None? && k <= |s| - 1
    requires forall j :: 0 <= j < k ==> MatchHere(p, s[1..][j..]).None?
    ensures forall j :: 0 <= j < k + 1 ==> MatchHere(p, s[j..]).None?
  {
    forall j | 0 <= j < k + 1
      ensures MatchHere(p, s[j..]).None?
    {
      if j == 0 {
        assert s[j..] == s;
      } else {
        assert s[j..] == s[1..][j - 1..];
      }
    }
  }

  /** A match at the very start is the one found. */
  lemma SubmatchAtStart(p: Pattern, s: string, c: string)
    requires MatchHere(p, s) == Some(c)
    ensures Submatch(p, s) == Some(c)
  {
  }

  /** A match anywhere in the text is found. */
  lemma {:induction false} SubmatchComplete(p: Pattern, s: string, i: nat)
    requires i <= |s| && MatchHere(p, s[i..]).Some?
    ensures Submatch(p, s).Some?
    decreases i
  {
    if i > 0 && MatchHere(p, s).None? {
      assert s[1..][i - 1..] == s[i..];
      SubmatchComplete(p, s[1..], i - 1);
    }
  }

  // ---------------------------------------------------------------- one photo

  /** `photoIDRe` (`(?i)^\d+$`): one or more ASCII digits and nothing else. */
  predicate IsPhotoId(s: string)
  {
    s != [] && AllDigits(s)
  }

  /** The 1500x1000 rendition of a photo, on the host the album page came from. */
  function ImageUrl(host: string, id: string): (r: string)
    ensures |r| == |host| + |id| + 30
  {
    "https://" + host + "/photos/" + id + "_1500x1000.jpg"
  }

  /** An element whose trimmed `data-id` is a photo id. */
  predicate HasPhotoId(e: PhotoElem)
  {
    IsPhotoId(TrimSpace(e.dataId))
  }

  /**
   * The first tier: an element with `data-id`. Its trimmed `data-id` must be a
   * photo id; the page link, when the element holds an `a.gallery-link`, is
   * that anchor's `href`, untrimmed, joined when root-relative.
   */
  function TypedPhoto(e: PhotoElem, host: string, base: string, join: (string, string) -> string): Option<Photo>
  {
    var pid := TrimSpace(e.dataId);
    if !IsPhotoId(pid) then None
    else
      var page := if e.galleryLinks == [] then [] else Resolve(e.galleryLinks[0], base, join);
      Some(Photo(pid, page, ImageUrl(host, pid)))
  }

  /**
   * The second tier: an anchor whose `href` contains `/Photo/`. The trimmed
   * `href` must hold a match of the anchor pattern; the capture is the photo
   * id and the trimmed `href`, joined when root-relative, the page link.
   */
  function AnchorPhoto(href: string, host: string, base: string, join: (string, string) -> string): (r: Option<Photo>)
    ensures r.Some? ==> Contains(href, "/Photo/") && Submatch(PhotoHref, TrimSpace(href)) == Some(r.value.id)
    ensures r.Some? ==> r.value.pageUrl == Resolve(TrimSpace(href), base, join)
  {
    if !Contains(href, "/Photo/") then None
    else
      var h := TrimSpace(href);
      if h == [] then None
      else
        match Submatch(PhotoHref, h)
        case None => None
        case Some(pid) =>
          if !IsPhotoId(pid) then None
          else Some(Photo(pid, Resolve(h, base, join), ImageUrl(host, pid)))
  }

  /**
   * The third tier: an image whose `src` contains `/photos/`. The capture of
   * the image pattern in the trimmed `src` is the photo id; there is no page
   * link, and the capture is not checked against `photoIDRe`.
   */
  function ImagePhoto(src: string, host: string): (r: Option<Photo>)
    ensures r.Some? ==> Contains(src, "/photos/") && Submatch(PhotoImage, TrimSpace(src)) == Some(r.value.id)
    ensures r.Some? ==> r.value.pageUrl == []
  {
    if !Contains(src, "/photos/") then None
    else
      match Submatch(PhotoImage, TrimSpace(src))
      case None => None
      case Some(pid) => Some(Photo(pid, [], ImageUrl(host, pid)))
  }

  /** A photo as the scraper builds it: a photo id, and the image on the page's host. */
  predicate WellBuilt(p: Photo, host: string)
  {
    IsPhotoId(p.id) && p.image1500 == ImageUrl(host, p.id)
  }

  /** The anchor tier's `photoIDRe` check never rejects: the pattern already captures only digits. */
  lemma AnchorIdAlwaysValid(href: string, host: string, base: string, join: (string, string) -> string)
    requires Contains(href, "/Photo/")
    ensures AnchorPhoto(href, host, base, join).Some? <==> Submatch(PhotoHref, TrimSpace(href)).Some?
  {
    var h := TrimSpace(href);
    var m := Submatch(PhotoHref, h);
    if m.Some? {
      AnchorPhotoOf(href, host, base, join, m.value);
    }
  }

  /** Nothing matches in empty text. */
  lemma SubmatchEmpty(p: Pattern)
    ensures Submatch(p, []) == None
  {
    assert !HasPrefix([], Lead(p));
  }

  /** The image tier's photo for a `src` whose trimmed form matches. */
  lemma ImagePhotoOf(src: string, host: string, id: string)
    requires Contains(src, "/photos/") && Submatch(PhotoImage, TrimSpace(src)) == Some(id)
    ensures ImagePhoto(src, host) == Some(Photo(id, [], ImageUrl(host, id)))
  {
  }

  /** The anchor tier's photo for an `href` whose trimmed form matches. */
  lemma AnchorPhotoOf(href: string, host: string, base: string, join: (string, string) -> string, id: string)
    requires Contains(href, "/Photo/") && Submatch(PhotoHref, TrimSpace(href)) == Some(id)
    ensures AnchorPhoto(href, host, base, join) == Some(Photo(id, Resolve(TrimSpace(href), base, join), ImageUrl(host, id)))
  {
  }

  /**
   * `href` links to photo `id` of album `album` in the form the anchor tier
   * expects: `/Photo/<album>/<id>`, then either nothing or text that starts
   * with a non-digit and does not end in white space.
   */
  predicate PhotoLink(href: string, album: string, id: string, rest: string)
  {
    && album != [] && AllDigits(album) && IsPhotoId(id)
    && (rest == [] || (!IsDigit(rest[0]) && !IsSpace(rest[|rest| - 1])))
    && href == "/Photo/" + album + "/" + id + rest
  }

  /** Such a link is selected by the anchor tier and is root-relative. */
  lemma PhotoLinkSelected(href: string, album: string, id: string, rest: string)
    requires PhotoLink(href, album, id, rest)
    ensures Contains(href, "/Photo/") && HasPrefix(href, "/")
  {
    assert href[..7] == "/Photo/";
    ContainsAt(href, "/Photo/", 0);
  }

  /** Such a link has no white space to trim. */
  lemma PhotoLinkTrimmed(href: string, album: string, id: string, rest: string)
    requires PhotoLink(href, album, id, rest)
    ensures TrimSpace(href) == href
  {
    assert rest == [] ==> href[|href| - 1] == id[|id| - 1];
    assert rest != [] ==> href[|href| - 1] == rest[|rest| - 1];
    TrimSpaceOfTrimmed(href);
  }

  /** The anchor pattern captures the photo id of such a link. */
  lemma PhotoLinkMatches(href: string, album: string, id: string, rest: string)
    requires PhotoLink(href, album, id, rest)
    ensures Submatch(PhotoHref, href) == Some(id)
  {
    HrefMatchComplete(album, id, rest);
    SubmatchAtStart(PhotoHref, href, id);
  }

  /** An anchor linking to a photo's page yields that photo, its page link being the joined `href`. */
  lemma AnchorReadsBack(href: string, album: string, id: string, rest: string, host: string, base: string, join: (string, string) -> string)
    requires PhotoLink(href, album, id, rest)
    ensures AnchorPhoto(href, host, base, join) == Some(Photo(id, join(base, href), ImageUrl(host, id)))
  {
    PhotoLinkSelected(href, album, id, rest);
    PhotoLinkTrimmed(href, album, id, rest);
    PhotoLinkMatches(href, album, id, rest);
    AnchorPhotoOf(href, host, base, join, id);
  }

  /**
   * `src` points at an image of photo `id` in the form the image tier
   * expects: `/photos/<id>_`, then anything that does not end in white space.
   */
  predicate PhotoSource(src: string, id: string, rest: string)
  {
    && IsPhotoId(id)
    && (rest == [] || !IsSpace(rest[|rest| - 1]))
    && src == "/photos/" + id + "_" + rest
  }

  /** The text such a source presents to the image tier. */
  lemma PhotoSourceFacts(src: string, id: string, rest: string)
    requires PhotoSource(src, id, rest)
    ensures Contains(src, "/photos/")
    ensures TrimSpace(src) == src
    ensures Submatch(PhotoImage, src) == Some(id)
  {
    assert src[..8] == "/photos/";
    ContainsAt(src, "/photos/", 0);
    assert rest == [] ==> src[|src| - 1] == '_';
    assert rest != [] ==> src[|src| - 1] == rest[|rest| - 1];
    TrimSpaceOfTrimmed(src);
    ImageMatchComplete(id, rest);
    SubmatchAtStart(PhotoImage, src, id);
  }

  /** An image whose source names a photo yields that photo, with no page link. */
  lemma ImageReadsBack(src: string, id: string, rest: string, host: string)
    requires PhotoSource(src, id, rest)
    ensures ImagePhoto(src, host) == Some(Photo(id, [], ImageUrl(host, id)))
  {
    PhotoSourceFacts(src, id, rest);
    ImagePhotoOf(src, host, id);
  }

  // ---------------------------------------------------------------- the tiers

  /** `[data-type='photo'][data-id]`, or `.gallery-inner [data-id]` when that matches nothing. */
  function PhotoElems(doc: Document): seq<PhotoElem>
  {
    if |doc.typedPhotos| == 0 then doc.galleryPhotos else doc.typedPhotos
  }

  /** The photos the first tier finds, in document order, before the limit. */
  function TypedPhotos(elems: seq<PhotoElem>, host: string, base: string, join: (string, string) -> string): (r: seq<Photo>)
    ensures |r| <= |elems|
  {
    if elems == [] then []
    else
      var last := TypedPhoto(elems[|elems| - 1], host, base, join);
      TypedPhotos(elems[..|elems| - 1], host, base, join) + (if last.Some? then [last.value] else [])
  }

  /** The photos the second tier finds, in document order, before the limit. */
  function AnchorPhotos(hrefs: seq<string>, host: string, base: string, join: (string, string) -> string): (r: seq<Photo>)
    ensures |r| <= |hrefs|
  {
    if hrefs == [] then []
    else
      var last := AnchorPhoto(hrefs[|hrefs| - 1], host, base, join);
      AnchorPhotos(hrefs[..|hrefs| - 1], host, base, join) + (if last.Some? then [last.value] else [])
  }

  /** The photos the third tier finds, in document order, before the limit. */
  function ImagePhotos(srcs: seq<string>, host: string): (r: seq<Photo>)
    ensures |r| <= |srcs|
  {
    if srcs == [] then []
    else
      var last := ImagePhoto(srcs[|srcs| - 1], host);
      ImagePhotos(srcs[..|srcs| - 1], host) + (if last.Some? then [last.value] else [])
  }

  /** Every photo of a list is well built. */
  predicate AllWellBuilt(photos: seq<Photo>, host: string)
  {
    forall k :: 0 <= k < |photos| ==> WellBuilt(photos[k], host)
  }

  /** The first tier builds every photo from a photo id. */
  lemma {:induction false} TypedPhotosWellBuilt(elems: seq<PhotoElem>, host: string, base: string, join: (string, string) -> string)
    ensures AllWellBuilt(TypedPhotos(elems, host, base, join), host)
  {
    if elems != [] {
      TypedPhotosWellBuilt(elems[..|elems| - 1], host, base, join);
    }
  }

  /** The second tier builds every photo from a digit capture. */
  lemma {:induction false} AnchorPhotosWellBuilt(hrefs: seq<string>, host: string, base: string, join: (string, string) -> string)
    ensures AllWellBuilt(AnchorPhotos(hrefs, host, base, join), host)
  {
    if hrefs != [] {
      AnchorPhotosWellBuilt(hrefs[..|hrefs| - 1], host, base, join);
    }
  }

  /** The third tier builds every photo from a digit capture, though it never checks the id. */
  lemma {:induction false} ImagePhotosWellBuilt(srcs: seq<string>, host: string)
    ensures AllWellBuilt(ImagePhotos(srcs, host), host)
  {
    if srcs != [] {
      ImagePhotosWellBuilt(srcs[..|srcs| - 1], host);
    }
  }

  /** Every element of a non-empty sequence fails a test exactly when all but the last do and the last does. */
  lemma AllFailStep<T>(s: seq<T>, init: seq<T>, fails: T -> bool)
    requires s != [] && init == s[..|s| - 1]
    ensures (forall k :: 0 <= k < |s| ==> fails(s[k])) <==>
      (forall k :: 0 <= k < |init| ==> fails(init[k])) && fails(s[|s| - 1])
  {
    assert forall k :: 0 <= k < |init| ==> init[k] == s[k];
  }

  /** The first tier finds nothing exactly when no element has a photo id. */
  lemma {:induction false} TypedPhotosEmpty(elems: seq<PhotoElem>, host: string, base: string, join: (string, string) -> string)
    ensures TypedPhotos(elems, host, base, join) == [] <==> forall k :: 0 <= k < |elems| ==> !HasPhotoId(elems[k])
  {
    if elems != [] {
      var init := elems[..|elems| - 1];
      TypedPhotosEmpty(init, host, base, join);
      AllFailStep(elems, init, e => !HasPhotoId(e));
    }
  }

  /** The second tier finds nothing exactly when no anchor yields a photo. */
  lemma {:induction false} AnchorPhotosEmpty(hrefs: seq<string>, host: string, base: string, join: (string, string) -> string)
    ensures AnchorPhotos(hrefs, host, base, join) == [] <==>
      forall k :: 0 <= k < |hrefs| ==> AnchorPhoto(hrefs[k], host, base, join).None?
  {
    if hrefs != [] {
      var init := hrefs[..|hrefs| - 1];
      AnchorPhotosEmpty(init, host, base, join);
      var last := AnchorPhoto(hrefs[|hrefs| - 1], host, base, join);
      assert AnchorPhotos(hrefs, host, base, join) == AnchorPhotos(init, host, base, join) + (if last.Some? then [last.value] else []);
      if last.None? {
        assert forall k :: 0 <= k < |hrefs| ==> hrefs[k] == (if k < |init| then init[k] else hrefs[|hrefs| - 1]);
      }
    }
  }

  /** The third tier finds nothing exactly when no image yields a photo. */
  lemma {:induction false} ImagePhotosEmpty(srcs: seq<string>, host: string)
    ensures ImagePhotos(srcs, host) == [] <==>
      forall k :: 0 <= k < |srcs| ==> ImagePhoto(srcs[k], host).None?
  {
    if srcs != [] {
      var init := srcs[..|srcs| - 1];
      ImagePhotosEmpty(init, host);
      var last := ImagePhoto(srcs[|srcs| - 1], host);
      assert ImagePhotos(srcs, host) == ImagePhotos(init, host) + (if last.Some? then [last.value] else []);
      if last.None? {
        assert forall k :: 0 <= k < |srcs| ==> srcs[k] == (if k < |init| then init[k] else srcs[|srcs| - 1]);
      }
    }
  }

  /** `photoLimit` as the tiers apply it: at most `limit` photos when it is positive, all of them otherwise. */
  function Limit<T>(s: seq<T>, limit: int): (r: seq<T>)
    ensures limit > 0 ==> |r| == if |s| < limit then |s| else limit
    ensures limit <= 0 ==> r == s
    ensures r == s[..|r|]
  {
    if limit > 0 && |s| > limit then s[..limit] else s
  }

  /**
   * What one more candidate does to a tier: once `limit` photos are held it
   * is skipped, otherwise its photo, if any, is appended.
   */
  lemma LimitSnoc<T>(s: seq<T>, x: seq<T>, limit: int)
    requires |x| <= 1
    ensures limit > 0 && |Limit(s, limit)| >= limit ==> Limit(s + x, limit) == Limit(s, limit)
    ensures !(limit > 0 && |Limit(s, limit)| >= limit) ==> Limit(s + x, limit) == Limit(s, limit) + x
  {
    if limit > 0 && |Limit(s, limit)| >= limit {
      assert (s + x)[..limit] == s[..limit];
    }
  }

  /** One loop step in terms of the photos held: the candidate's photo is kept only while the limit is not reached. */
  lemma LimitGrow<T>(held: seq<T>, prefix: seq<T>, found: Option<T>, limit: int)
    requires held == Limit(prefix, limit)
    ensures Limit(prefix + (if found.Some? then [found.value] else []), limit) ==
      if !(limit > 0 && |held| >= limit) && found.Some? then held + [found.value] else held
  {
    LimitSnoc(prefix, if found.Some? then [found.value] else [], limit);
  }

  /** The first of three candidate lists, each cut to the limit, that is not empty; the third when none is. */
  function FirstFound<T>(first: seq<T>, second: seq<T>, third: seq<T>, limit: int): seq<T>
  {
    var a := Limit(first, limit);
    if a != [] then a
    else
      var b := Limit(second, limit);
      if b != [] then b
      else Limit(third, limit)
  }

  /** A later list is used only when every earlier one is empty, and nothing is found only when all are empty. */
  lemma FirstFoundOrder<T>(first: seq<T>, second: seq<T>, third: seq<T>, limit: int)
    ensures var r := FirstFound(first, second, third, limit);
      && (first != [] ==> r == Limit(first, limit))
      && (first == [] && second != [] ==> r == Limit(second, limit))
      && (first == [] && second == [] ==> r == Limit(third, limit))
      && (r == [] <==> first == [] && second == [] && third == [])
  {
    if limit > 0 {
      assert first != [] ==> |Limit(first, limit)| > 0;
      assert second != [] ==> |Limit(second, limit)| > 0;
    }
  }

  /** What is found is a prefix of one of the lists, within the limit. */
  lemma FirstFoundPrefix<T>(first: seq<T>, second: seq<T>, third: seq<T>, limit: int)
    ensures var r := FirstFound(first, second, third, limit);
      && (limit > 0 ==> |r| <= limit)
      && ((|r| <= |first| && r == first[..|r|]) || (|r| <= |second| && r == second[..|r|]) ||
          (|r| <= |third| && r == third[..|r|]))
  {
  }

  /** Every prefix of a list of well-built photos is one. */
  lemma AllWellBuiltPrefix(photos: seq<Photo>, n: nat, host: string)
    requires n <= |photos| && AllWellBuilt(photos, host)
    ensures AllWellBuilt(photos[..n], host)
  {
    forall k | 0 <= k < n
      ensures WellBuilt(photos[..n][k], host)
    {
      assert photos[..n][k] == photos[k];
    }
  }

  /**
   * The photos of an album page: the first tier, or the second when the first
   * found none, or the third when neither did, each cut to the limit.
   */
  function ExtractPhotos(doc: Document, host: string, base: string, join: (string, string) -> string, limit: int): seq<Photo>
  {
    FirstFound(
      TypedPhotos(PhotoElems(doc), host, base, join),
      AnchorPhotos(doc.anchorHrefs, host, base, join),
      ImagePhotos(doc.imageSrcs, host),
      limit)
  }

  /**
   * The promises of the photo tiers: at most `limit` photos when it is
   * positive, and each photo a digit id with its image on the page's host.
   */
  lemma ExtractPhotosProperties(doc: Document, host: string, base: string, join: (string, string) -> string, limit: int)
    ensures limit > 0 ==> |ExtractPhotos(doc, host, base, join, limit)| <= limit
    ensures AllWellBuilt(ExtractPhotos(doc, host, base, join, limit), host)
  {
    var typed := TypedPhotos(PhotoElems(doc), host, base, join);
    var anchored := AnchorPhotos(doc.anchorHrefs, host, base, join);
    var imaged := ImagePhotos(doc.imageSrcs, host);
    var r := FirstFound(typed, anchored, imaged, limit);
    FirstFoundPrefix(typed, anchored, imaged, limit);
    if |r| <= |typed| && r == typed[..|r|] {
      TypedPhotosWellBuilt(PhotoElems(doc), host, base, join);
      AllWellBuiltPrefix(typed, |r|, host);
    } else if |r| <= |anchored| && r == anchored[..|r|] {
      AnchorPhotosWellBuilt(doc.anchorHrefs, host, base, join);
      AllWellBuiltPrefix(anchored, |r|, host);
    } else {
      ImagePhotosWellBuilt(doc.imageSrcs, host);
      AllWellBuiltPrefix(imaged, |r|, host);
    }
  }

  /** The tiers are tried in order: a later tier is used only when every earlier one found nothing. */
  lemma ExtractPhotosTiers(doc: Document, host: string, base: string, join: (string, string) -> string, limit: int)
    ensures var r := ExtractPhotos(doc, host, base, join, limit);
      var typed := TypedPhotos(PhotoElems(doc), host, base, join);
      var anchored := AnchorPhotos(doc.anchorHrefs, host, base, join);
      var imaged := ImagePhotos(doc.imageSrcs, host);
      && (typed != [] ==> r == Limit(typed, limit))
      && (typed == [] && anchored != [] ==> r == Limit(anchored, limit))
      && (typed == [] && anchored == [] ==> r == Limit(imaged, limit))
      && (r == [] <==> typed == [] && anchored == [] && imaged == [])
  {
    FirstFoundOrder(
      TypedPhotos(PhotoElems(doc), host, base, join),
      AnchorPhotos(doc.anchorHrefs, host, base, join),
      ImagePhotos(doc.imageSrcs, host),
      limit);
  }

  // ---------------------------------------------------------------- the loops

  /** Appending one candidate's photo to a tier's list. */
  lemma TypedPhotosStep(elems: seq<PhotoElem>, i: nat, host: string, base: string, join: (string, string) -> string)
    requires i < |elems|
    ensures var found := TypedPhoto(elems[i], host, base, join);
      TypedPhotos(elems[..i + 1], host, base, join) ==
      TypedPhotos(elems[..i], host, base, join) + (if found.Some? then [found.value] else [])
  {
    assert elems[..i + 1][..i] == elems[..i];
  }

  lemma AnchorPhotosStep(hrefs: seq<string>, i: nat, host: string, base: string, join: (string, string) -> string)
    requires i < |hrefs|
    ensures var found := AnchorPhoto(hrefs[i], host, base, join);
      AnchorPhotos(hrefs[..i + 1], host, base, join) ==
      AnchorPhotos(hrefs[..i], host, base, join) + (if found.Some? then [found.value] else [])
  {
    assert hrefs[..i + 1][..i] == hrefs[..i];
  }

  lemma ImagePhotosStep(srcs: seq<string>, i: nat, host: string)
    requires i < |srcs|
    ensures var found := ImagePhoto(srcs[i], host);
      ImagePhotos(srcs[..i + 1], host) == ImagePhotos(srcs[..i], host) + (if found.Some? then [found.value] else [])
  {
    assert srcs[..i + 1][..i] == srcs[..i];
  }

  lemma TypedGatherStep(elems: seq<PhotoElem>, i: nat, host: string, base: string, join: (string, string) -> string,
                         held: seq<Photo>, limit: int)
    requires i < |elems| && held == Limit(TypedPhotos(elems[..i], host, base, join), limit)
    ensures var found := TypedPhoto(elems[i], host, base, join);
      Limit(TypedPhotos(elems[..i + 1], host, base, join), limit) ==
      if !(limit > 0 && |held| >= limit) && found.Some? then held + [found.value] else held
  {
    TypedPhotosStep(elems, i, host, base, join);
    LimitGrow(held, TypedPhotos(elems[..i], host, base, join), TypedPhoto(elems[i], host, base, join), limit);
  }

  /** The first `Each` loop: a candidate is skipped once `photoLimit` photos are held. */
  method GatherTyped(elems: seq<PhotoElem>, host: string, base: string, join: (string, string) -> string, photoLimit: int)
    returns (photos: seq<Photo>)
    ensures photos == Limit(TypedPhotos(elems, host, base, join), photoLimit)
  {
    photos := [];
    var count := 0;
    var i := 0;
    while i < |elems|
      invariant 0 <= i <= |elems|
      invariant photos == Limit(TypedPhotos(elems[..i], host, base, join), photoLimit)
      invariant count == |photos|
    {
      photos, count := TakeTyped(elems, i, host, base, join, photoLimit, photos, count);
      i := i + 1;
    }
    assert elems[..|elems|] == elems;
  }

  /** The body of the first loop: candidate `i` is read unless `photoLimit` photos are held. */
  method TakeTyped(elems: seq<PhotoElem>, i: nat, host: string, base: string, join: (string, string) -> string,
                   photoLimit: int, photos: seq<Photo>, count: int)
    returns (photos': seq<Photo>, count': int)
    requires i < |elems| && photos == Limit(TypedPhotos(elems[..i], host, base, join), photoLimit)
    requires count == |photos|
    ensures photos' == Limit(TypedPhotos(elems[..i + 1], host, base, join), photoLimit)
    ensures count' == |photos'|
  {
    var found := ReadTyped(elems[i], host, base, join);
    TypedGatherStep(elems, i, host, base, join, photos, photoLimit);
    photos', count' := photos, count;
    if !(photoLimit > 0 && count >= photoLimit) && found.Some? {
      photos' := photos + [found.value];
      count' := count + 1;
    }
  }

  /** One candidate of the first loop: its id, page link and image link when the id is valid. */
  method ReadTyped(e: PhotoElem, host: string, base: string, join: (string, string) -> string) returns (found: Option<Photo>)
    ensures found == TypedPhoto(e, host, base, join)
  {
    var pid := TrimSpace(e.dataId);
    if !IsPhotoId(pid) {
      return None;
    }
    var page := [];
    if e.galleryLinks != [] {
      page := Resolve(e.galleryLinks[0], base, join);
    }
    found := Some(Photo(pid, page, ImageUrl(host, pid)));
  }

  /** The second `Each` loop, over the anchors. */
  method GatherAnchors(hrefs: seq<string>, host: string, base: string, join: (string, string) -> string, photoLimit: int)
    returns (photos: seq<Photo>)
    ensures photos == Limit(AnchorPhotos(hrefs, host, base, join), photoLimit)
  {
    photos := [];
    var count := 0;
    var i := 0;
    while i < |hrefs|
      invariant 0 <= i <= |hrefs|
      invariant photos == Limit(AnchorPhotos(hrefs[..i], host, base, join), photoLimit)
      invariant count == |photos|
    {
      var found := AnchorPhoto(hrefs[i], host, base, join);
      AnchorPhotosStep(hrefs, i, host, base, join);
      LimitGrow(photos, AnchorPhotos(hrefs[..i], host, base, join), found, photoLimit);
      if !(photoLimit > 0 && count >= photoLimit) && found.Some? {
        photos := photos + [found.value];
        count := count + 1;
      }
      i := i + 1;
    }
    assert hrefs[..|hrefs|] == hrefs;
  }

  /** The third `Each` loop, over the images. */
  method GatherImages(srcs: seq<string>, host: string, photoLimit: int) returns (photos: seq<Photo>)
    ensures photos == Limit(ImagePhotos(srcs, host), photoLimit)
  {
    photos := [];
    var count := 0;
    var i := 0;
    while i < |srcs|
      invariant 0 <= i <= |srcs|
      invariant photos == Limit(ImagePhotos(srcs[..i], host), photoLimit)
      invariant count == |photos|
    {
      var found := ImagePhoto(srcs[i], host);
      ImagePhotosStep(srcs, i, host);
      LimitGrow(photos, ImagePhotos(srcs[..i], host), found, photoLimit);
      if !(photoLimit > 0 && count >= photoLimit) && found.Some? {
        photos := photos + [found.value];
        count := count + 1;
      }
      i := i + 1;
    }
    assert srcs[..|srcs|] == srcs;
  }

  /**
   * The photo gathering of `parseAlbum`: the three loops share `count`, which
   * is the number of photos held, and the second and third run only while it
   * is still 0.
   */
  method CollectPhotos(doc: Document, host: string, base: string, join: (string, string) -> string, photoLimit: int)
    returns (photos: seq<Photo>)
    ensures photos == ExtractPhotos(doc, host, base, join, photoLimit)
  {
    photos := GatherTyped(PhotoElems(doc), host, base, join, photoLimit);
    if |photos| == 0 {
      photos := GatherAnchors(doc.anchorHrefs, host, base, join, photoLimit);
    }
    if |photos| == 0 {
      photos := GatherImages(doc.imageSrcs, host, photoLimit);
    }
  }

  // ---------------------------------------------------------------- the header

  /** `album.ID`: the trimmed `content` of the first album meta tag, "" when the page has none. */
  function AlbumId(doc: Document): (r: string)
    ensures Trimmed(r)
    ensures doc.albumMetas == [] ==> r == []
  {
    if doc.albumMetas != [] then TrimSpace(doc.albumMetas[0]) else []
  }

  /** `album.Date`: the header's date text, trimmed, with one leading `|` and the space after it dropped. */
  function AlbumDate(text: string): (r: string)
    ensures Trimmed(r)
  {
    var dt := TrimSpace(text);
    if dt != [] then TrimSpace(TrimPrefix(dt, "|")) else []
  }

  /** A date shown between white space after a `|` separator is read back exactly. */
  lemma AlbumDateAfterBar(shown: string, left: string, mid: string, right: string)
    requires Trimmed(shown)
    requires AllSpace(left) && AllSpace(mid) && AllSpace(right)
    ensures AlbumDate(left + "|" + mid + shown + right) == shown
  {
    if shown == [] {
      BarAlone(left, mid, right);
    } else {
      BarThenDate(shown, left, mid, right);
    }
  }

  lemma BarAlone(left: string, mid: string, right: string)
    requires AllSpace(left) && AllSpace(mid) && AllSpace(right)
    ensures AlbumDate(left + "|" + mid + [] + right) == []
  {
    assert left + "|" + mid + [] + right == left + "|" + (mid + right);
    TrimSpacePadded(left, "|", mid + right);
    assert TrimPrefix("|", "|") == [];
  }

  lemma BarThenDate(shown: string, left: string, mid: string, right: string)
    requires shown != [] && Trimmed(shown)
    requires AllSpace(left) && AllSpace(mid) && AllSpace(right)
    ensures AlbumDate(left + "|" + mid + shown + right) == shown
  {
    var core := "|" + mid + shown;
    Group(left, "|", mid, shown, right);
    assert core[0] == '|' && core[|core| - 1] == shown[|shown| - 1];
    TrimSpacePadded(left, core, right);
    assert core == "|" + (mid + shown);
    DropBar(mid + shown);
    TrimLeading(mid, shown);
  }

  /** `strings.TrimPrefix` removes a leading separator. */
  lemma DropBar(rest: string)
    ensures TrimPrefix("|" + rest, "|") == rest
  {
    assert ("|" + rest)[..1] == "|";
    assert ("|" + rest)[1..] == rest;
  }

  /** White space followed by a trimmed string trims to that string. */
  lemma TrimLeading(mid: string, shown: string)
    requires AllSpace(mid) && Trimmed(shown)
    ensures TrimSpace(mid + shown) == shown
  {
    TrimSpacePadded(mid, shown, []);
    assert mid + shown + [] == mid + shown;
  }

  /** Concatenation regrouped around its middle three parts. */
  lemma Group(a: string, b: string, c: string, d: string, e: string)
    ensures a + b + c + d + e == a + (b + c + d) + e
  {
  }

  /** A date shown between white space with no separator is read back exactly, unless it starts with `|`. */
  lemma AlbumDateBare(shown: string, left: string, right: string)
    requires Trimmed(shown) && (shown == [] || shown[0] != '|')
    requires AllSpace(left) && AllSpace(right)
    ensures AlbumDate(left + shown + right) == shown
  {
    TrimSpacePadded(left, shown, right);
    if shown != [] {
      assert TrimPrefix(shown, "|") == shown;
      TrimSpaceOfTrimmed(shown);
    }
  }

  /** A date the scraper understands, shown in the header with or without the separator, parses back to itself. */
  lemma AlbumDateReadsBack(d: Date, k: nat, left: string, mid: string, right: string)
    requires ValidDate(d) && k < |Layouts|
    requires AllSpace(left) && AllSpace(mid) && AllSpace(right)
    ensures ParseDate(AlbumDate(left + "|" + mid + Format(d, k) + right)) == Some(d)
    ensures ParseDate(AlbumDate(left + Format(d, k) + right)) == Some(d)
  {
    FormatShape(d, k);
    AlbumDateAfterBar(Format(d, k), left, mid, right);
    AlbumDateBare(Format(d, k), left, right);
    FormatRoundTrip(d, k);
  }

  /** `album.PhotosCnt` from the header label: Sscanf of the trimmed text when it is not empty, else 0. */
  function HeaderPhotos(doc: Document): int
  {
    var pc := TrimSpace(FirstText(doc.headerPhotoCounts));
    if pc != [] then ScanIntInto(pc, 0) else 0
  }

  /** The header's photo count is read like a tile's count: the `pc != ""` guard changes nothing. */
  lemma HeaderPhotosIsCount(doc: Document)
    ensures HeaderPhotos(doc) == CountOf(FirstText(doc.headerPhotoCounts))
  {
    ScanIntEmpty();
  }

  /** A header label that starts with a 64-bit count, however padded and whatever words follow, gives that count. */
  lemma HeaderPhotosReads(doc: Document, n: int, left: string, tail: string, right: string)
    requires MinInt64 <= n <= MaxInt64
    requires AllSpace(left) && AllSpace(right)
    requires tail == [] || (!IsDigit(tail[0]) && !IsSpace(tail[|tail| - 1]))
    requires doc.headerPhotoCounts != [] && doc.headerPhotoCounts[0] == left + FormatInt(n) + tail + right
    ensures HeaderPhotos(doc) == n
  {
    HeaderPhotosIsCount(doc);
    CountOfReads(n, left, tail, right);
  }

  // ---------------------------------------------------------------- the whole album

  /**
   * The album `parseAlbum` adds for a fetched page, before the merge with the
   * tile information, or None when the response is not HTML.
   */
  function AlbumOf(page: Page, join: (string, string) -> string, photoLimit: int): (r: Option<Album>)
    ensures r.Some? <==> page.doc.Some?
  {
    match page.doc
    case None => None
    case Some(doc) =>
      Some(Album(
        AlbumId(doc),
        TrimSpace(FirstText(doc.headerTitles)),
        page.url,
        AlbumDate(FirstText(doc.headerDates)),
        HeaderPhotos(doc),
        0,
        ExtractPhotos(doc, page.host, page.url, join, photoLimit)))
  }

  /**
   * The header of an album read from a page: it is the page's own URL, its
   * text fields carry no surrounding white space, and no views are counted.
   */
  lemma AlbumOfHeader(page: Page, join: (string, string) -> string, photoLimit: int)
    requires page.doc.Some?
    ensures var a := AlbumOf(page, join, photoLimit).value;
      a.url == page.url && a.viewsCnt == 0 && Trimmed(a.title) && Trimmed(a.date) && Trimmed(a.id)
  {
  }

  /** The photos of an album read from a page obey the limit and are well built. */
  lemma AlbumOfPhotos(page: Page, join: (string, string) -> string, photoLimit: int)
    requires page.doc.Some?
    ensures var a := AlbumOf(page, join, photoLimit).value;
      && (photoLimit > 0 ==> |a.photos| <= photoLimit)
      && AllWellBuilt(a.photos, page.host)
  {
    ExtractPhotosProperties(page.doc.value, page.host, page.url, join, photoLimit);
  }

  /** `parseAlbum` up to the merge: the album it builds field by field from the page. */
  method ParseAlbum(page: Page, join: (string, string) -> string, photoLimit: int) returns (album: Option<Album>)
    ensures album == AlbumOf(page, join, photoLimit)
  {
    if page.doc.None? {
      return None;
    }
    var doc := page.doc.value;
    var a := Album([], [], page.url, [], 0, 0, []);
    if doc.albumMetas != [] {
      a := a.(id := TrimSpace(doc.albumMetas[0]));
    }
    a := a.(title := TrimSpace(FirstText(doc.headerTitles)));
    var dt := TrimSpace(FirstText(doc.headerDates));
    if dt != [] {
      dt := TrimSpace(TrimPrefix(dt, "|"));
    }
    a := a.(date := dt);
    var pc := TrimSpace(FirstText(doc.headerPhotoCounts));
    if pc != [] {
      a := a.(photosCnt := ScanIntInto(pc, a.photosCnt));
    }
    var photos := CollectPhotos(doc, page.host, page.url, join, photoLimit);
    a := a.(photos := photos);
    album := Some(a);
  }
}
