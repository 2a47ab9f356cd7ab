# ZoneramaScraper core, in Dafny

ZoneramaScraper is a small HTTP service that scrapes photo albums from
zonerama.com. `/zonerama?link=…` takes a profile or an album link. A profile
page lists album tiles. Each tile gives an album URL, a Czech date such as
"20. 9. 2025", a photo count and a view count. The service sorts the tiles
newest first. It then fetches up to `album_limit` distinct albums and reads
each album's header and photos, with at most `photo_limit` photos per album.
It fills gaps in an album from its tile and returns the albums sorted newest
first. `/zonerama-album?link=…` reads a single album page.

This project models the deterministic core of that service and proves what
it promises:

- `GoText`: the Go library behaviour the core depends on. This is
  `strings.TrimSpace`, `Contains`, `TrimPrefix`, the first field of `Split`,
  string `<`, `fmt.Sscanf("%d")` into a 64-bit `int` (the target is left
  unchanged on failure) and `strconv.ParseBool`.
- `CzDate`: `parseDate`/`parseCzDate`. This is `time.Parse` with the four
  layouts "2. 1. 2006", "2. 1.2006", "2.1.2006" and "02.01.2006", read by an
  interpreter of layout elements that follows Go's `getnum`/`cutspace` rules.
  It is proved sound and complete against a declarative "cut into fitting
  pieces" reading. The proofs also show that the layout order never changes
  the result and that the fourth layout is strictly narrower than the third.
- `StableOrder`: both `sort.SliceStable` comparators, as one rank order.
  The model holds a reference stable insertion sort, proved to give a sorted,
  stable permutation that is the only one. It also holds the in-place array
  sort, proved equal to the reference.
- `Records`: the album, photo, tile and page records. A fetched page is
  abstracted to the selections the scraper makes, in document order.
- `Tiles`: the profile-tile loop. It covers link fallbacks, root-relative
  joins, and the date and counts of the first paragraph.
- `AlbumPage`: `parseAlbum` up to the merge. This is the header fields and
  the three photo tiers under one shared photo count. The two regular
  expressions are hand-written matchers, proved sound and complete.
- `PrelimMerge`: the fill-only merge of tile information into an album.
- `Scheduler`: the crawl state as a `Crawl` class. It holds the router, the
  profile callback (scan, sort, dispatch loop), the album callbacks and the
  final album sort. The dispatch loop is proved against a spec function
  `Visit`.
- `Requests`: `url.Values.Get`, the numeric parameters with their defaults,
  the concurrency clamp, the render and debug toggles, the link checks in
  their order, and the router's classification.

## Model

| member | source | states |
|---|---|---|
| CzDate.GetNum | main.go:659 | definition of Go's `getnum` for the day and month fields: one or two digits read greedily, exactly two for a zero-padded field; ScanSound and ScanComplete rest on it |
| CzDate.CutSpace | main.go:659 | definition of Go's `cutspace` after a blank in the layout: drops leading spaces only; ScanSound and ScanComplete rest on it |
| CzDate.Scan | main.go:659 | definition of `time.Parse`'s walk over the layout, which must consume the whole input; characterised by ScanSound and ScanComplete |
| CzDate.ParseWith | main.go:659 | definition of one `time.Parse` call, keeping the calendar date; every success is a valid date, and ParseWithCut says exactly which inputs succeed |
| CzDate.FirstParse | main.go:658-663 | definition of the loop over the four layouts; FirstParseFinds and LayoutsAgree state what it returns |
| CzDate.ParseDate | main.go:652-664 | blank or white-space-only input never parses; every date returned is a real calendar date (month 1..12, day within the month, leap years counted, four-digit year) |
| CzDate.ParseDateTrimmed | main.go:652-656 | trimming the input first changes nothing: `s` and `TrimSpace(s)` give the same result |
| CzDate.ParseDateComplete | main.go:657-663 | a trimmed input cut into pieces that fit one of the four layouts and denote a valid date parses to exactly that date |
| CzDate.ParseDateSound | main.go:652-664 | whatever parses is the trimmed input cut to fit one of the four layouts, and the result is the date those pieces denote |
| CzDate.LayoutsAgree | main.go:657-663 | two layouts that both accept an input read the same date from it, so trying them in order loses nothing |
| CzDate.ZeroPaddedSubsumed | main.go:657 | the fourth layout "02.01.2006" accepts nothing the third "2.1.2006" does not already read, and reads the same date from it |
| CzDate.ZeroPaddedStricter | main.go:657 | the inclusion is strict: a one-digit day and month between dots, such as "1.2.2020", is read by "2.1.2006" and refused by "02.01.2006", whose fields need two digits |
| CzDate.FormatRoundTrip | main.go:657-663 | every valid date written in any of the four layouts parses back to itself |
| CzDate.FormatShape | main.go:657 | a written date starts and ends with a digit and holds no bar character |
| CzDate.ScanComplete | main.go:659 | time.Parse's reader accepts every cut of the input into fitting pieces and reads each field from its piece |
| CzDate.ScanSound | main.go:659 | everything time.Parse's reader accepts can be cut into fitting pieces that denote what it read |
| CzDate.ParseWithCut | main.go:659 | for the four layouts, a cut input parses exactly when the date it denotes is valid |
| CzDate.FirstParseFinds | main.go:658-663 | the loop returns the first layout's success, and later layouts are tried only after earlier ones fail |
| CzDate.DaysIn | main.go:659 | month lengths 28..31, with February at 29 exactly in leap years |
| StableOrder.BeforeIrreflexive | main.go:665-678 | the comparator never puts a record before itself |
| StableOrder.BeforeTransitive | main.go:665-678 | the comparator is transitive |
| StableOrder.BeforeTotal | main.go:665-678 | two ranks that neither precede the other are equal, so records the comparator cannot tell apart have equal ranks |
| StableOrder.StableSortCorrect | main.go:665-678 | the sort returns a permutation of its input that is sorted and keeps every group of equal-ranked records in input order |
| StableOrder.StableSortUnique | main.go:665 | any sorted, stable permutation equals the reference result, so the model fixes sort.SliceStable's output whatever algorithm it uses |
| StableOrder.SortedShape | main.go:666-677 | in a sorted list, dated records precede undated ones, dates do not increase, and undated keys do not decrease |
| StableOrder.SortInPlace | main.go:665 | sorting the array in place leaves it holding the reference stable sort of its old contents |
| StableOrder.InsertLast | main.go:665 | one insertion step moves `a[i]` into its place in the sorted run `a[..i]` and leaves the rest alone |
| Tiles.SelectTiles | main.go:602-605 | definition: the tiles are `li.list-alb`, or the broader selection when that one selects nothing; Scheduler.Crawl.Profile scans exactly these tiles |
| Tiles.Resolve | main.go:626-628 | definition: `JoinURL` is applied to root-relative links only; the links it yields are pinned by TileReadsBack and AlbumPage.AnchorReadsBack |
| Tiles.TileLink | main.go:614-625 | definition of the link fallbacks: `data-url`, then the thumbnail href, then the first href, each trimmed; TileLinkEmpty and ThumbnailHrefFirst characterise it, and ReadLink is proved equal to it |
| Tiles.ThumbnailHrefFirst | main.go:617 | the thumbnail link is the href of the first `a.thumbnail`, and "" when there is none |
| Tiles.TileLinkEmpty | main.go:614-625 | a tile has no link exactly when its `data-url`, thumbnail href and first href are all blank |
| Tiles.ReadLink | main.go:614-622 | the link lookup with its two fallbacks gives the tile's link |
| Tiles.CountOf | main.go:641-647 | a count is the integer the trimmed span starts with, or 0 when Sscanf fails |
| Tiles.CountOfReads | main.go:643-646 | a 64-bit count written in decimal reads back, whatever white space surrounds it and whatever non-digit text follows |
| Tiles.InfoDate | main.go:633-640 | definition of the tile date: the trimmed paragraph text up to the first bar character, trimmed again; InfoDateClean and InfoDateReads state what it reads |
| Tiles.InfoDateClean | main.go:633-640 | the tile date is trimmed and holds no bar character |
| Tiles.InfoDateReads | main.go:633-640 | a date shown before the first bar character of the paragraph, with white space around it, is read back exactly |
| Tiles.TileInfo | main.go:629-648 | definition of a tile's preliminary information from its first paragraph; TileInfoReads, InfoDateReads and CountOfReads state what it reads |
| Tiles.TileEntry | main.go:613-649 | definition of one pass of the tile loop; TileLinkEmpty says when it yields nothing, and TileReadsBack what it yields |
| Tiles.TileInfoReads | main.go:629-648 | a tile whose first paragraph shows a written date and whose first two spans hold 64-bit counts gives exactly that date and those counts |
| Tiles.TileEntries | main.go:613-650 | reference definition of the tile loop: the entries of the linked tiles in tile order; ScanTiles is proved equal to it |
| Tiles.ReadTile | main.go:613-649 | reading one tile in the loop gives the entry the tile specification defines: none without a link, otherwise the resolved link with the tile's information |
| Tiles.ScanTiles | main.go:613-650 | the tile loop yields one entry per linked tile, in tile order |
| Tiles.TileReadsBack | main.go:613-649 | a tile showing a written date and counts yields exactly that entry, and its date parses back |
| AlbumPage.MatchHere | main.go:429-430 | definition of a match of either pattern starting at the first character, each run of digits taken greedily; every capture is a non-empty run of digits, and the sound and complete lemmas characterise it |
| AlbumPage.Submatch | main.go:531-535 | definition of `FindStringSubmatch` with its capture: every capture is a non-empty run of digits, and SubmatchLeftmost and SubmatchComplete say which match it reports |
| AlbumPage.HrefMatchSound | main.go:429 | an anchor match is `/Photo/`, digits, `/`, the captured digits, and no digit right after them |
| AlbumPage.HrefMatchComplete | main.go:429 | every text of that form matches and captures the photo digits |
| AlbumPage.ImageMatchSound | main.go:430 | an image match is `/photos/`, the captured digits, then `_` |
| AlbumPage.ImageMatchComplete | main.go:430 | every text of that form matches and captures the digits |
| AlbumPage.SubmatchLeftmost | main.go:531 | FindStringSubmatch reports the leftmost match, and none only when no position matches |
| AlbumPage.SubmatchComplete | main.go:561 | a match anywhere in the text is found |
| AlbumPage.PhotoElems | main.go:492-496 | definition of the first tier's candidates: `[data-type='photo'][data-id]`, or `.gallery-inner [data-id]` when that selects nothing; AlbumPage.CollectPhotos reads exactly these elements |
| AlbumPage.TypedPhoto | main.go:503-515 | definition of one candidate of the first tier; TypedPhotosWellBuilt and TypedPhotosEmpty state what the tier yields |
| AlbumPage.AnchorPhoto | main.go:523-546 | an anchor yields a photo only when its href contains `/Photo/` and its trimmed form matches the pattern, with the captured id and the resolved href |
| AlbumPage.ImagePhoto | main.go:556-570 | an image yields a photo only when its src contains `/photos/` and its trimmed form matches, with the captured id and no page link |
| AlbumPage.AnchorIdAlwaysValid | main.go:535-538 | the second tier's id check never rejects, because the capture is already digits |
| AlbumPage.AnchorReadsBack | main.go:523-546 | an anchor to a photo page yields that photo, with the joined href as its page link |
| AlbumPage.ImageReadsBack | main.go:556-570 | an image whose src names a photo yields that photo |
| AlbumPage.TypedPhotosWellBuilt | main.go:503-515 | every first-tier photo has a digit id and the image URL `https://<host>/photos/<id>_1500x1000.jpg` |
| AlbumPage.AnchorPhotosWellBuilt | main.go:531-543 | the same for the second tier |
| AlbumPage.ImagePhotosWellBuilt | main.go:561-567 | the same for the third tier, although it never checks the id |
| AlbumPage.TypedPhotosEmpty | main.go:499-506 | the first tier finds nothing exactly when no element has a digit `data-id` |
| AlbumPage.AnchorPhotosEmpty | main.go:523-538 | the second tier finds nothing exactly when no anchor yields a photo |
| AlbumPage.ImagePhotosEmpty | main.go:556-565 | the third tier finds nothing exactly when no image yields a photo |
| AlbumPage.ExtractPhotos | main.go:491-575 | reference definition of the three tiers under one shared count: the first non-empty tier, cut to the limit; ExtractPhotosProperties and ExtractPhotosTiers state its promises, and CollectPhotos is proved equal to it |
| AlbumPage.ExtractPhotosProperties | main.go:492-575 | an album gets at most `photoLimit` photos when the limit is positive, and every photo is well built |
| AlbumPage.ExtractPhotosTiers | main.go:519-575 | the anchor tier is used only when the first found nothing, and the image tier only when both did; the result is empty only when all three are |
| AlbumPage.ReadTyped | main.go:502-513 | reading one element in the first loop gives the photo the first tier defines for it |
| AlbumPage.TakeTyped | main.go:498-516 | one pass of the first loop keeps the photo list equal to the first tier's photos of the elements seen so far, cut to the limit, with the count equal to its length |
| AlbumPage.GatherTyped | main.go:492-518 | the first loop keeps the first tier's photos in document order, cut to the limit |
| AlbumPage.GatherAnchors | main.go:520-551 | the second loop does the same for the anchors |
| AlbumPage.GatherImages | main.go:553-575 | the third loop does the same for the images |
| AlbumPage.CollectPhotos | main.go:491-575 | the three loops under one shared count give the tier result |
| AlbumPage.AlbumId | main.go:472-477 | the id is the trimmed content of the first album meta tag, and "" without one |
| AlbumPage.AlbumDate | main.go:480-485 | the header date is trimmed |
| AlbumPage.AlbumDateAfterBar | main.go:480-485 | a date shown after a bar character used as separator, with white space around it, is read back exactly |
| AlbumPage.AlbumDateBare | main.go:480-485 | a date shown without a separator is read back exactly unless it starts with a bar character |
| AlbumPage.AlbumDateReadsBack | main.go:480-485 | a date written in any layout, with or without the separator, parses back from the header |
| AlbumPage.HeaderPhotos | main.go:486-489 | definition of the header's photo count; HeaderPhotosIsCount and HeaderPhotosReads state what it reads |
| AlbumPage.HeaderPhotosIsCount | main.go:486-489 | the `pc != ""` guard changes nothing: the header count is read like a tile count |
| AlbumPage.HeaderPhotosReads | main.go:486-489 | a header label that starts with a 64-bit count gives that count |
| AlbumPage.AlbumOf | main.go:463-468 | a page without a document yields no album |
| AlbumPage.AlbumOfHeader | main.go:470-489 | the album's URL is the page's, no views are counted before the merge, and id, title and date carry no surrounding white space |
| AlbumPage.AlbumOfPhotos | main.go:491-575 | the album's photos obey the limit and are well built |
| AlbumPage.ParseAlbum | main.go:463-575 | the callback builds, field by field, the album the page denotes |
| PrelimMerge.Merged | main.go:580-588 | definition of the fill-only merge of one tile's information; MergedKeeps, MergedTakes, MergedFills and MergeIdempotent state its promises |
| PrelimMerge.MergeFrom | main.go:579-589 | definition of the merge guarded by the lookup in `prelim`; MergeWithoutEntry and MergeIdempotent state its promises, and MergePrelim is proved equal to it |
| PrelimMerge.MergedKeeps | main.go:579-589 | a date with text and non-zero counts are never replaced, and id, title, URL and photos never change |
| PrelimMerge.MergedTakes | main.go:579-589 | a field that changes takes the tile's value, and only a trimmed non-empty date or a positive count |
| PrelimMerge.MergedFills | main.go:579-589 | an empty field is filled whenever the tile has a useful value for it |
| PrelimMerge.MergeWithoutEntry | main.go:579 | with no tile information for the album's URL the album is unchanged |
| PrelimMerge.MergeIdempotent | main.go:578-590 | merging twice is merging once |
| PrelimMerge.MergePrelim | main.go:578-590 | the field-by-field guarded updates produce the merged album |
| Scheduler.TileRank | main.go:666-677 | definition of where the tile comparator places an entry: by its parsed date, else by its URL |
| Scheduler.AlbumRank | main.go:761-773 | definition of where the album comparator places an album: by its parsed date, else by its title |
| Scheduler.TileLess | main.go:665-678 | the tile comparator as written; TileLessIsBefore proves it is the rank order |
| Scheduler.AlbumLess | main.go:760-774 | the album comparator as written; AlbumLessIsBefore proves it is the rank order |
| Scheduler.TileLessIsBefore | main.go:665-678 | the tile comparator, as written, is the rank order on (date, else URL) |
| Scheduler.AlbumLessIsBefore | main.go:760-774 | the album comparator, as written, is the rank order on (date, else title) |
| Scheduler.SortedEntries | main.go:665-678 | the sorted entries are a permutation of the scanned ones: dated first, newest first, undated by URL, ties kept in scan order |
| Scheduler.SortedAlbums | main.go:760-774 | the sorted albums are a permutation of the response: dated first, newest first, undated by title, ties kept in arrival order |
| Scheduler.SortEntries | main.go:665-678 | the entries are sorted by the stable sort under the tile rank |
| Scheduler.Visit | main.go:680-701 | reference definition of the dispatch loop from a given state; VisitDispatches, VisitSeen, VisitKeepsValid, VisitedStops and VisitRecords state its promises, and Crawl.Dispatch is proved equal to it |
| Scheduler.FreshDistinct | main.go:686-694 | the URLs the loop can dispatch are distinct and are exactly those not seen before |
| Scheduler.VisitDispatches | main.go:680-701 | the loop dispatches exactly the first distinct unseen URLs of the sorted entries, in order, as many as a positive limit allows, counting each |
| Scheduler.VisitSeen | main.go:686-692 | `seen` grows by exactly the URLs dispatched, and earlier requests are kept |
| Scheduler.VisitKeepsValid | main.go:680-701 | with a positive limit at most `albumLimit` URLs are dispatched; no URL is dispatched twice, and `seen` is exactly the set dispatched |
| Scheduler.VisitedStops | main.go:681-683 | the loop leaves entries unvisited only after the count reaches a positive limit |
| Scheduler.VisitRecords | main.go:684-686 | `prelim` ends up as the information of the visited entries written in order, duplicates included |
| Scheduler.RecordLast | main.go:686 | each visited URL maps to the information of its last visited entry |
| Scheduler.RecordElsewhere | main.go:686 | URLs that no visited entry has keep what they held |
| Scheduler.ArrivalUnmerged | main.go:579 | without tile information for its URL, the merging callback adds the album as the album endpoint does |
| Scheduler.Crawl.constructor | main.go:417-423 | the crawl starts with no tile information, nothing seen, nothing dispatched and no albums |
| Scheduler.Crawl.Dispatch | main.go:680-701 | the loop with its `break` and `continue` leaves the state `Visit` describes, keeps the crawl invariant, and dispatches at most a positive limit |
| Scheduler.Crawl.Profile | main.go:594-701 | a profile page's tiles are scanned, sorted and dispatched; a page without a document changes nothing |
| Scheduler.Crawl.Route | main.go:712-724 | a page with profile markers goes to the profile callback, one with only album markers to the album callback, and any other page to the profile callback |
| Scheduler.Crawl.Receive | main.go:463-592 | the album read from the page, merged with its tile information, is appended to the response |
| Scheduler.Crawl.Add | main.go:578-592 | the merge runs under the lock and `addAlbum` appends the result |
| Scheduler.Crawl.ReceiveSingle | main.go:124-218 | the album endpoint appends the album read, without a merge |
| Scheduler.Crawl.AddAsIs | main.go:215-217 | the album endpoint's append |
| Scheduler.Crawl.SortAlbums | main.go:760-774 | the response's albums become their stable sort under the album rank |
| Requests.Get | main.go:339 | an absent key gives "", and any other result is the value of a pair with that key |
| Requests.GetFirst | main.go:339 | the first pair with the key decides the value |
| Requests.QueryInt | main.go:358-366 | definition of a numeric parameter: the default, overwritten by Sscanf `%d` when the value is given; QueryIntReads, QueryIntGiven and QueryIntAbsent state what it reads |
| Requests.QueryIntReads | main.go:358-366 | a numeric parameter is the integer its value starts with, and the default when it is absent or unparseable |
| Requests.QueryIntGiven | main.go:358-366 | a parameter given as a 64-bit decimal integer, with any non-digit suffix, takes that integer |
| Requests.QueryIntAbsent | main.go:358-366 | an absent parameter keeps its default |
| Requests.Concurrency | main.go:403-412 | the concurrency is at least 1, at most a positive album limit, the requested value when it is within those bounds, and otherwise the bound it crosses |
| Requests.BoolParam | main.go:377-382 | definition of a boolean parameter overwritten when ParseBool accepts the value; UseRendered and DebugSave state their results in terms of ParseBool |
| Requests.UseRendered | main.go:377-392 | rendering is used unless `rendered` parses as false, or `no-render` or `no_render` parses as true |
| Requests.DebugSave | main.go:368-374 | debug saving is on only when `debug` parses as true |
| Requests.CheckLink | main.go:339-357 | an accepted link carries the parsed URL |
| Requests.Failures | main.go:339-357 | independent definition of the set of checks a link fails, in no order; CheckLinkFirstFailure relates it to CheckLink |
| Requests.CheckLinkFirstFailure | main.go:38-59 | a link is accepted exactly when it fails no check; otherwise it is rejected for the first failed check in the order missing, invalid, off-site, not an album; the path check is made only on the album endpoint |
| Requests.Begin | main.go:335-412 | a request is refused exactly when its link is rejected, for the same reason, and before any fetch; an accepted one runs with concurrency within its bounds |
| Requests.BeginDefaults | main.go:358-412 | a request naming only an accepted link runs with album limit 5, photo limit 10, concurrency 5, rendering on and debug off |
| Requests.Classify | main.go:712-724 | a page goes to the album parser exactly when it has no profile markers and has an album marker |
| GoText.TrimSpace | main.go:653 | definition of `strings.TrimSpace`; the result never starts or ends with white space, and TrimSpacePadded and TrimSpaceIdempotent pin it |
| GoText.TrimSpacePadded | main.go:634-638 | TrimSpace removes exactly the white space around a core with no white space at its ends |
| GoText.TrimSpaceIdempotent | main.go:580-581 | trimming twice is trimming once |
| GoText.ScanInt | main.go:643-646 | definition of `fmt.Sscanf(s, "%d")` on a 64-bit `int`: every value read is in the 64-bit range, and ScanIntRoundTrip shows it reads back every such value |
| GoText.ScanIntInto | main.go:358-361 | definition of the variable after Sscanf: the value read, or the old value on failure; Requests.QueryIntReads states it for the parameters |
| GoText.ScanIntRoundTrip | main.go:643-646 | Sscanf `%d` reads back every 64-bit decimal integer, whatever non-digit text follows |
| GoText.ParseBool | main.go:377-392 | definition of `strconv.ParseBool`: exactly the spellings 1, t, T, TRUE, true and True for true and 0, f, F, FALSE, false and False for false; ParseBoolUnpadded states what follows for padded values |
| GoText.ParseBoolUnpadded | main.go:377-392 | ParseBool does not trim: a value with white space before or after it is refused, so `rendered= false` leaves rendering on; every accepted value is non-empty and trimmed |
| GoText.StrLessTotal | main.go:677 | Go's string `<` orders any two different strings one way or the other |

## Left out

- HTTP serving, the documentation page, response headers and JSON encoding are I/O.
- The geziyor crawler, `Get`/`GetRendered` and retries are network and browser code. A fetch result is a `Page` whose document is optional. A dispatched request is recorded by appending its URL to `dispatched`.
- Dispatched album requests always use `GetRendered`, whatever the toggle says (main.go:697). The toggle picks only how the start page is fetched. The model records dispatches by URL only.
- goquery and CSS selector matching are a foreign library. Each selector the scraper uses is a field of `Document` holding, in document order, the attribute values or texts it reads.
- `url.Parse`, the query-string decoding and `cr.JoinURL` are foreign. The handlers take the parsed scheme, host and path, and `None` for a parse error. The query is a sequence of key/value pairs. Joining is an uninterpreted function `join(base, link)`.
- Concurrency is not modelled: the mutex, the WaitGroup, the `sem` channel and the interleaving of callbacks. Each callback is one atomic step on `Crawl`. In the source, album callbacks can run in any order, so the response order before the final sort is not fixed. The final sort fixes it up to records the comparator cannot tell apart.
- The semaphore capacity is the clamped concurrency. The model computes that value but does not model the semaphore itself.
- `saveDebug` is left out: file writes, SHA-1 names and the filename sanitiser.
- `log.Printf` is left out.
- `time.Time` is not modelled. A parsed date is the `(year, month, day)` triple `time.Parse` validates, and `After` is the lexicographic order on triples. Time zones and clock fields play no part.
- The general `time.Parse` grammar is covered only for the layout elements the four layouts use.
- Strings are sequences of Unicode scalar values, not UTF-8 bytes. Go's `<` on UTF-8 bytes orders code points the same way. Invalid UTF-8 is not modelled.
- `unicode.IsSpace` is modelled for the characters it lists.
- The `(?i)` flag of the photo-id pattern has no effect on digits, so it is not modelled.
- `Response.InputLink` is not modelled: it is the link echoed back unchanged.
