/**
 * The records the scraper produces and the parts of a fetched page it reads.
 *
 * A page's HTML is abstracted to the selections the scraper asks for: each
 * CSS selector it uses becomes a field holding, in document order, the
 * attribute values or texts it reads from the matched elements. An attribute
 * read with `AttrOr(name, "")` is a string that is "" when the attribute is
 * absent, which is all the scraper can observe of it.
 */
module Records {
  import opened Base

  /** One photo of an album (JSON `id`, `page_url`, `image_1500`). */
  datatype Photo = Photo(id: string, pageUrl: string, image1500: string)

  /** One album of the response. */
  datatype Album = Album(
    id: string,
    title: string,
    url: string,
    date: string,
    photosCnt: int,
    viewsCnt: int,
    photos: seq<Photo>)

  /** What a profile tile says about an album before the album page is fetched (`prelimInfo`). */
  datatype PrelimInfo = PrelimInfo(date: string, photosCnt: int, viewsCnt: int)

  /** A tile's album link with its preliminary information (`entry`). */
  datatype Entry = Entry(url: string, info: PrelimInfo)

  /** An `a` element inside a profile tile: whether it has class `thumbnail`, and its `href`. */
  datatype Anchor = Anchor(thumbnail: bool, href: string)

  /** A `p` element inside a profile tile: its text and the texts of its `span`s. */
  datatype Para = Para(text: string, spans: seq<string>)

  /** A profile tile: its `data-url`, its anchors and its paragraphs, in document order. */
  datatype Tile = Tile(dataUrl: string, anchors: seq<Anchor>, paras: seq<Para>)

  /** An element carrying `data-id` in an album's gallery, with the `href`s of its `a.gallery-link`s. */
  datatype PhotoElem = PhotoElem(dataId: string, galleryLinks: seq<string>)

  /** The selections of a fetched page, each in document order. */
  datatype Document = Document(
    listTiles: seq<Tile>,            // li.list-alb
    altTiles: seq<Tile>,             // [data-type='album'], li[class*='list-alb']
    profileAlbums: bool,             // #profile-albums matches something
    albumMetas: seq<string>,         // content of each meta[property='znrm:album']
    albumHeader: bool,               // .row-name-album matches something
    headerTitles: seq<string>,       // text of each .row-name-album h2 span
    headerDates: seq<string>,        // text of each .row-name-album .album-info .hide-on-phone
    headerPhotoCounts: seq<string>,  // text of each .row-name-album [data-id='header-album-photos']
    typedPhotos: seq<PhotoElem>,     // [data-type='photo'][data-id]
    galleryPhotos: seq<PhotoElem>,   // .gallery-inner [data-id]
    anchorHrefs: seq<string>,        // href of each a that has one
    imageSrcs: seq<string>)          // src of each img that has one

  /**
   * A response delivered to a callback: the request's final URL, its host,
   * and the parsed document, absent when the body was not HTML.
   */
  datatype Page = Page(url: string, host: string, doc: Option<Document>)

  /** `.First().Text()` of a selection: the first text, or "" when nothing matched. */
  function FirstText(texts: seq<string>): (r: string)
    ensures texts == [] ==> r == []
    ensures texts != [] ==> r == texts[0]
  {
    if texts == [] then [] else texts[0]
  }
}
