/**
 * What the two handlers decide before any page is fetched, and the router
 * that decides which callback reads a fetched page: the link checks, the
 * numeric query parameters with their defaults, the concurrency clamp, the
 * rendering and debug toggles.
 *
 * The query string is taken as already parsed (`url.Values`): the
 * key/value pairs in the order they appear. The link is taken together
 * with the result of `url.Parse` on it, `None` where that reports an error.
 */
module Requests {
  import opened Base
  import opened GoText
  import opened Records

  /** A parsed query string: its key/value pairs in order of appearance. */
  type Query = seq<(string, string)>

  /** `url.Values.Get`: the first value given for `key`, or "" if there is none. */
  function Get(q: Query, key: string): (r: string)
    ensures (forall k :: 0 <= k < |q| ==> q[k].0 != key) ==> r == []
    ensures r != [] ==> exists k :: 0 <= k < |q| && q[k] == (key, r)
  {
    if q == [] then []
    else if q[0].0 == key then q[0].1
    else
      var r := Get(q[1..], key);
      assert r != [] ==> exists k :: 0 <= k < |q[1..]| && q[1..][k] == (key, r);
      assert forall k :: 0 <= k < |q[1..]| ==> q[1..][k] == q[k + 1];
      r
  }

  /** The first pair with `key` decides what `Get` returns. */
  lemma {:induction false} GetFirst(q: Query, key: string, k: nat)
    requires k < |q| && q[k].0 == key
    requires forall j :: 0 <= j < k ==> q[j].0 != key
    ensures Get(q, key) == q[k].1
  {
    if k > 0 {
      GetFirst(q[1..], key, k - 1);
    }
  }

  // ---------------------------------------------------------------- numeric parameters

  /** The defaults of `album_limit`, `photo_limit` and `concurrency`. */
  const DefaultAlbumLimit := 5
  const DefaultPhotoLimit := 10
  const DefaultConcurrency := 8

  /** An `int` parameter: the default, overwritten by `fmt.Sscanf(s, "%d", &v)` when the value is given. */
  function QueryInt(q: Query, key: string, default: int): int
  {
    var s := Get(q, key);
    if s != [] then ScanIntInto(s, default) else default
  }

  /** A parameter is the integer its value starts with, and the default when it is absent or does not start with one. */
  lemma QueryIntReads(q: Query, key: string, default: int)
    ensures QueryInt(q, key, default) ==
      match ScanInt(Get(q, key))
      case Some(v) => v
      case None => default
  {
    if Get(q, key) == [] {
      ScanIntEmpty();
    }
  }

  /** A parameter first given as a decimal integer, whatever non-digit text follows it, takes that integer. */
  lemma QueryIntGiven(q: Query, key: string, default: int, k: nat, n: int, rest: string)
    requires k < |q| && q[k] == (key, FormatInt(n) + rest)
    requires forall j :: 0 <= j < k ==> q[j].0 != key
    requires MinInt64 <= n <= MaxInt64
    requires rest == [] || !IsDigit(rest[0])
    ensures QueryInt(q, key, default) == n
  {
    GetFirst(q, key, k);
    ScanIntRoundTrip(n, rest);
  }

  /** An absent parameter takes its default. */
  lemma QueryIntAbsent(q: Query, key: string, default: int)
    requires forall k :: 0 <= k < |q| ==> q[k].0 != key
    ensures QueryInt(q, key, default) == default
  {
  }

  // ---------------------------------------------------------------- concurrency

  /**
   * The number of album fetches allowed at once: the requested value,
   * raised to 1 when smaller, then lowered to a positive album limit when
   * larger.
   */
  function Concurrency(requested: int, albumLimit: int): (r: int)
    ensures r >= 1
    ensures albumLimit > 0 ==> r <= albumLimit
    ensures albumLimit <= 0 ==> r == (if requested < 1 then 1 else requested)
    ensures 1 <= requested && (albumLimit <= 0 || requested <= albumLimit) ==> r == requested
    ensures albumLimit > 0 && requested > albumLimit ==> r == albumLimit
  {
    var c := if requested < 1 then 1 else requested;
    if albumLimit > 0 && c > albumLimit then albumLimit else c
  }

  // ---------------------------------------------------------------- toggles

  /** A boolean parameter: `current`, overwritten by the value when `strconv.ParseBool` accepts it. */
  function BoolParam(q: Query, key: string, current: bool): bool
  {
    var s := Get(q, key);
    if s != [] && ParseBool(s).Some? then ParseBool(s).value else current
  }

  /** A switch-off parameter: `false` when its value parses as true, `current` otherwise. */
  function SwitchOff(q: Query, key: string, current: bool): bool
  {
    var s := Get(q, key);
    if s != [] && ParseBool(s) == Some(true) then false else current
  }

  /**
   * Whether the start page is fetched with JavaScript rendering: yes unless
   * `rendered` parses as false or `no-render` or `no_render` parses as true.
   */
  function UseRendered(q: Query): (r: bool)
    ensures r <==>
      && ParseBool(Get(q, "rendered")) != Some(false)
      && ParseBool(Get(q, "no-render")) != Some(true)
      && ParseBool(Get(q, "no_render")) != Some(true)
  {
    SwitchOff(q, "no_render", SwitchOff(q, "no-render", BoolParam(q, "rendered", true)))
  }

  /** Whether fetched pages are saved for debugging: only when `debug` parses as true. */
  function DebugSave(q: Query): (r: bool)
    ensures r <==> ParseBool(Get(q, "debug")) == Some(true)
  {
    BoolParam(q, "debug", false)
  }

  // ---------------------------------------------------------------- link checks

  /** The two scraping endpoints: `/zonerama` (profile or album) and `/zonerama-album`. */
  datatype Endpoint = ProfileEndpoint | AlbumEndpoint

  /** The parts of a parsed link the checks look at. */
  datatype Url = Url(scheme: string, host: string, path: string)

  /** Why a request is answered with 400 Bad Request. */
  datatype LinkError = MissingLink | InvalidLink | NotZonerama | NotAlbumLink

  datatype Checked = Accepted(url: Url) | Rejected(error: LinkError)

  predicate WebScheme(scheme: string)
  {
    scheme == "http" || scheme == "https"
  }

  /** The link checks of a handler, in the order it makes them. */
  function CheckLink(endpoint: Endpoint, link: string, parsed: Option<Url>): (r: Checked)
    ensures r.Accepted? ==> parsed == Some(r.url)
  {
    if link == [] then Rejected(MissingLink)
    else if parsed.None? || !WebScheme(parsed.value.scheme) then Rejected(InvalidLink)
    else if !Contains(parsed.value.host, "zonerama.com") then Rejected(NotZonerama)
    else if endpoint == AlbumEndpoint && !Contains(parsed.value.path, "/Album/") then Rejected(NotAlbumLink)
    else Accepted(parsed.value)
  }

  /** Every check the link fails, in no particular order of precedence. */
  function Failures(endpoint: Endpoint, link: string, parsed: Option<Url>): set<LinkError>
  {
    (if link == [] then {MissingLink} else {})
    + (if parsed.None? || !WebScheme(parsed.value.scheme) then {InvalidLink} else {})
    + (if parsed.Some? && !Contains(parsed.value.host, "zonerama.com") then {NotZonerama} else {})
    + (if endpoint == AlbumEndpoint && parsed.Some? && !Contains(parsed.value.path, "/Album/") then {NotAlbumLink} else {})
  }

  /** The order in which the checks are made: missing, invalid, off-site, not an album. */
  function CheckOrder(e: LinkError): nat
  {
    match e
    case MissingLink => 0
    case InvalidLink => 1
    case NotZonerama => 2
    case NotAlbumLink => 3
  }

  /**
   * A link is accepted exactly when it fails no check, and otherwise it is
   * rejected for the first failed check in the order missing, invalid,
   * off-site, not an album; the album-path check is made only on the
   * album endpoint.
   */
  lemma CheckLinkFirstFailure(endpoint: Endpoint, link: string, parsed: Option<Url>)
    ensures var r := CheckLink(endpoint, link, parsed);
      var fails := Failures(endpoint, link, parsed);
      && (r.Accepted? <==> fails == {})
      && (r.Rejected? ==> r.error in fails && forall e :: e in fails ==> CheckOrder(r.error) <= CheckOrder(e))
      && (endpoint == ProfileEndpoint ==> NotAlbumLink !in fails)
  {
  }

  // ---------------------------------------------------------------- what a request starts

  /** The settings a handler runs with once the link is accepted. */
  datatype Settings = Settings(
    link: string,
    albumLimit: int,    // profile endpoint only
    photoLimit: int,
    concurrency: int,   // profile endpoint only
    rendered: bool,
    debug: bool)

  /** A handler's answer before any fetch: 400 with the reason, or the settings of the crawl it starts. */
  datatype Start = BadRequest(error: LinkError) | Run(settings: Settings)

  /**
   * A handler up to its first fetch: the link checks, then the parameters.
   * The album endpoint reads no `album_limit` and no `concurrency`; its
   * settings hold the profile defaults there, which it never uses.
   */
  function Begin(endpoint: Endpoint, q: Query, parsed: Option<Url>): (r: Start)
    ensures r.BadRequest? <==> CheckLink(endpoint, Get(q, "link"), parsed).Rejected?
    ensures r.BadRequest? ==> r.error == CheckLink(endpoint, Get(q, "link"), parsed).error
    ensures r.Run? ==> r.settings.link == Get(q, "link") && r.settings.link != []
    ensures r.Run? ==> r.settings.concurrency >= 1
    ensures r.Run? && r.settings.albumLimit > 0 ==> r.settings.concurrency <= r.settings.albumLimit
  {
    var link := Get(q, "link");
    match CheckLink(endpoint, link, parsed)
    case Rejected(e) => BadRequest(e)
    case Accepted(_) =>
      var albumLimit := if endpoint == ProfileEndpoint then QueryInt(q, "album_limit", DefaultAlbumLimit) else DefaultAlbumLimit;
      var requested := if endpoint == ProfileEndpoint then QueryInt(q, "concurrency", DefaultConcurrency) else DefaultConcurrency;
      Run(Settings(link, albumLimit, QueryInt(q, "photo_limit", DefaultPhotoLimit),
        Concurrency(requested, albumLimit), UseRendered(q), DebugSave(q)))
  }

  /** A request that names only an accepted link runs with every default. */
  lemma BeginDefaults(endpoint: Endpoint, link: string, parsed: Option<Url>)
    requires CheckLink(endpoint, link, parsed).Accepted?
    ensures Begin(endpoint, [("link", link)], parsed)
      == Run(Settings(link, DefaultAlbumLimit, DefaultPhotoLimit, Concurrency(DefaultConcurrency, DefaultAlbumLimit), true, false))
  {
    var q: Query := [("link", link)];
    assert Get(q, "album_limit") == [] && Get(q, "concurrency") == [] && Get(q, "photo_limit") == [];
    assert Get(q, "rendered") == [] && Get(q, "no-render") == [] && Get(q, "no_render") == [] && Get(q, "debug") == [];
  }

  // ---------------------------------------------------------------- the router

  /** The callback a fetched page is handed to. */
  datatype Route = ToProfile | ToAlbum

  /** Profile markers first, then album markers; anything else is read as a profile. */
  function Classify(doc: Document): (r: Route)
    ensures r == ToAlbum <==> doc.listTiles == [] && !doc.profileAlbums && (doc.albumMetas != [] || doc.albumHeader)
  {
    if doc.listTiles != [] || doc.profileAlbums then ToProfile
    else if doc.albumMetas != [] || doc.albumHeader then ToAlbum
    else ToProfile
  }
}
