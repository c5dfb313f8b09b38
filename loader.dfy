/** The pure decisions of the feed normaliser in public/loader.js: feed type
    detection from a MIME type or a file name, the per-format field
    selection for JSON Feed 1.1 items, RSS 2.0 `<item>` elements and Atom
    (RFC 4287) entries, and the `processItems` truncation and age filter.
    DOM elements and parsed JSON are records of optional strings; the host's
    `new Date(text)`, `new URL(text)` and the string-level sanitiser are
    function parameters. */
module Loader {
  import opened Wrappers
  import opened Records

  datatype FeedType = Json | Xml

  // ---------------------------------------------------------------------
  // MIME types and feed file names

  const JsonMimeTypes: set<string> := {"application/json", "application/feed+json"}
  const XmlMimeTypes: set<string> :=
    {"application/atom+xml", "application/rss+xml", "application/x-rss+xml", "application/xml", "text/xml"}
  /** The types `<link rel=alternate>` discovery accepts. */
  const StrictJsonMimeTypes: set<string> := {"application/feed+json"}
  const StrictXmlMimeTypes: set<string> := {"application/atom+xml", "application/rss+xml"}

  const JsonFeedNames: set<string> := {"feed.json", "index.json"}
  const XmlFeedNames: set<string> :=
    {"rss.xml", "rss2.xml", "atom.xml", "index.xml", "index.rss", "index.rss2", "index.atom",
     "feed.xml", "feed.rss", "feed.rss2", "feed.atom"}

  /** mimeToType: the lenient table used on a response's Content-Type. */
  function MimeToType(mime: string): Option<FeedType> {
    if mime in JsonMimeTypes then Some(Json)
    else if mime in XmlMimeTypes then Some(Xml)
    else None
  }

  /** strictMimeToType: the table used for `<link rel=alternate type=...>`. */
  function StrictMimeToType(mime: string): Option<FeedType> {
    if mime in StrictJsonMimeTypes then Some(Json)
    else if mime in StrictXmlMimeTypes then Some(Xml)
    else None
  }

  /** The strict table is a restriction of the lenient one, and a proper
      one: plain JSON and XML types are only accepted leniently. */
  lemma StrictIsRestriction(mime: string)
    ensures StrictMimeToType(mime).Some? ==> MimeToType(mime) == StrictMimeToType(mime)
    ensures StrictMimeToType("application/json").None? && MimeToType("application/json") == Some(Json)
    ensures StrictMimeToType("text/xml").None? && MimeToType("text/xml") == Some(Xml)
  {
  }

  /** The last `/`-separated segment of a path (`path.split("/")` last). */
  function LastSegment(path: string): (r: string)
    ensures '/' !in r
    ensures |r| <= |path| && r == path[|path| - |r|..]
    ensures |r| < |path| ==> path[|path| - |r| - 1] == '/'
  {
    if path == [] then []
    else if path[|path| - 1] == '/' then []
    else LastSegment(path[..|path| - 1]) + [path[|path| - 1]]
  }

  /** feedTypeFromName: guess the type from a well-known feed file name. */
  function FeedTypeFromName(path: string): Option<FeedType> {
    var name := LastSegment(path);
    if name in JsonFeedNames then Some(Json)
    else if name in XmlFeedNames then Some(Xml)
    else None
  }

  lemma {:induction false} LastSegmentAfterSlash(dir: string, name: string)
    requires '/' !in name
    ensures LastSegment(dir + "/" + name) == name
  {
    if name == [] {
      assert dir + "/" + name == dir + "/";
    } else {
      var p := dir + "/" + name;
      assert p[..|p| - 1] == dir + "/" + name[..|name| - 1];
      assert name[|name| - 1] in name;
      LastSegmentAfterSlash(dir, name[..|name| - 1]);
      assert name == name[..|name| - 1] + [name[|name| - 1]];
    }
  }

  /** Only the segment after the last `/` matters. */
  lemma FeedTypeFromNameUsesLastSegment(dir: string, name: string)
    requires '/' !in name
    ensures FeedTypeFromName(dir + "/" + name) == FeedTypeFromName(name)
  {
    LastSegmentAfterSlash(dir, name);
    LastSegmentWhole(name);
  }

  /** A name without `/` is its own last segment. */
  lemma {:induction false} LastSegmentWhole(name: string)
    requires '/' !in name
    ensures LastSegment(name) == name
  {
    if name != [] {
      var init := name[..|name| - 1];
      assert name[|name| - 1] in name;
      assert forall c :: c in init ==> c in name;
      LastSegmentWhole(init);
      assert name == init + [name[|name| - 1]];
    }
  }

  /** The two name tables are disjoint, so a name is never both JSON and
      XML: every JSON name ends in `n`, no XML name does. */
  lemma FeedNameTablesDisjoint()
    ensures JsonFeedNames !! XmlFeedNames
  {
    forall n | n in JsonFeedNames ensures n !in XmlFeedNames {
      assert n[|n| - 1] == 'n';
    }
  }

  // ---------------------------------------------------------------------
  // Content-Type parameters

  /** JavaScript's `\s`. */
  predicate IsSpace(c: char) {
    c == ' ' || c == '\t' || c == '\n' || c == '\r' || c == '\U{000B}' || c == '\U{000C}'
    || c == '\U{00A0}' || c == '\U{1680}' || ('\U{2000}' <= c <= '\U{200A}')
    || c == '\U{2028}' || c == '\U{2029}' || c == '\U{202F}' || c == '\U{205F}'
    || c == '\U{3000}' || c == '\U{FEFF}'
  }

  /** Index of the first `c` in `s`, or `|s|`. */
  function IndexOf(s: string, c: char): (i: nat)
    ensures i <= |s|
    ensures c !in s[..i]
    ensures i < |s| ==> s[i] == c
  {
    if s == [] then 0
    else if s[0] == c then 0
    else 1 + IndexOf(s[1..], c)
  }

  /** `s` without its trailing whitespace. */
  function TrimEnd(s: string): (r: string)
    ensures |r| <= |s| && r == s[..|r|]
    ensures r == [] || !IsSpace(r[|r| - 1])
    ensures forall k :: |r| <= k < |s| ==> IsSpace(s[k])
  {
    if s == [] then []
    else if IsSpace(s[|s| - 1]) then TrimEnd(s[..|s| - 1])
    else s
  }

  /** The first piece of the Content-Type split at a `;` and the
      whitespace around it: the media type without its parameters. */
  function MediaType(contentType: string): string {
    var i := IndexOf(contentType, ';');
    if i == |contentType| then contentType else TrimEnd(contentType[..i])
  }

  /** The media type is the part before the first `;`, with the whitespace
      in front of that `;` removed; without a `;` the value is unchanged. */
  lemma MediaTypeSpec(contentType: string)
    ensures var r := MediaType(contentType);
      && r == contentType[..|r|]
      && ';' !in r
      && (';' !in contentType ==> r == contentType)
      && (';' in contentType ==>
            var i := IndexOf(contentType, ';');
            && |r| <= i
            && (r == [] || !IsSpace(r[|r| - 1]))
            && forall k :: |r| <= k < i ==> IsSpace(contentType[k]))
  {
    var i := IndexOf(contentType, ';');
    var r := MediaType(contentType);
    if i == |contentType| {
      assert contentType[..i] == contentType;
    } else {
      assert contentType[i] == ';';
      assert r == contentType[..i][..|r|];
      assert ';' !in r by {
        forall k | 0 <= k < |r| ensures r[k] != ';' {
          assert r[k] == contentType[..i][k];
        }
      }
    }
  }

  // ---------------------------------------------------------------------
  // Feed heads

  /** Fields of a parsed JSON Feed document that the normaliser reads. */
  datatype JsonFeedDoc = JsonFeedDoc(
    title: Option<string>,
    homePageUrl: Option<string>,
    feedUrl: Option<string>,
    items: Option<seq<JsonItemDoc>>)

  /** RSS 2.0 `<channel>`: the trimmed text of `<title>` and `<link>`. */
  datatype ChannelElem = ChannelElem(title: Option<string>, link: Option<string>)

  /** Atom `<feed>`: the trimmed `<title>` text and the `href` of the first
      `<link rel="alternate">` (RFC 4287 section 4.2.7). */
  datatype AtomFeedElem = AtomFeedElem(title: Option<string>, alternateHref: Option<string>)

  /** The common patch: the title is always replaced, the home page only by
      a truthy link. */
  function PatchFeed(feed: Feed, title: Option<string>, homePage: Option<string>): Feed {
    feed.(title := title, homePageUrl := if Truthy(homePage) then homePage else feed.homePageUrl)
  }

  function ParseJSONFeed(feed: Feed, json: JsonFeedDoc): Feed {
    PatchFeed(feed, json.title, json.homePageUrl)
  }

  function ParseRSS2Feed(feed: Feed, channel: ChannelElem): Feed {
    PatchFeed(feed, channel.title, channel.link)
  }

  function ParseATOMFeed(feed: Feed, atom: AtomFeedElem): Feed {
    PatchFeed(feed, atom.title, atom.alternateHref)
  }

  /** All three feed parsers only touch the title and the home page: the
      id, URL, load and fetch times and error of the feed survive. */
  lemma FeedParsersKeepIdentity(feed: Feed, json: JsonFeedDoc, channel: ChannelElem, atom: AtomFeedElem)
    ensures var j := ParseJSONFeed(feed, json);
      && j.title == json.title
      && j.homePageUrl == (if Truthy(json.homePageUrl) then json.homePageUrl else feed.homePageUrl)
      && j.(title := feed.title, homePageUrl := feed.homePageUrl) == feed
    ensures var r := ParseRSS2Feed(feed, channel);
      && r.title == channel.title
      && r.homePageUrl == (if Truthy(channel.link) then channel.link else feed.homePageUrl)
      && r.(title := feed.title, homePageUrl := feed.homePageUrl) == feed
    ensures var a := ParseATOMFeed(feed, atom);
      && a.title == atom.title
      && a.homePageUrl == (if Truthy(atom.alternateHref) then atom.alternateHref else feed.homePageUrl)
      && a.(title := feed.title, homePageUrl := feed.homePageUrl) == feed
  {
  }

  // ---------------------------------------------------------------------
  // Items

  /** Fields of a JSON Feed 1.1 item; `None` is `undefined`. */
  datatype JsonItemDoc = JsonItemDoc(
    datePublished: Option<string>,
    contentHtml: Option<string>,
    contentText: Option<string>,
    url: Option<string>,
    image: Option<string>,
    title: Option<string>,
    tags: Option<seq<string>>)

  /** An RSS 2.0 `<item>`: trimmed texts of its sub-elements, the
      `<enclosure>` attributes, and the text of every `<category>` in
      document order. `encoded` is `<content:encoded>`. */
  datatype RssItemElem = RssItemElem(
    pubDate: Option<string>,
    description: Option<string>,
    encoded: Option<string>,
    link: Option<string>,
    title: Option<string>,
    enclosureUrl: Option<string>,
    enclosureType: Option<string>,
    categories: seq<string>)

  /** An Atom `<entry>` (RFC 4287): trimmed texts of `<published>` (4.2.9),
      `<updated>` (4.2.15), `<content>` (4.1.3), `<summary>` (4.2.13) and
      `<title>`; the `href` of the first `<link>` and of the first
      `<link rel="alternate">` (4.2.7); the enclosure link's `href` and
      `type`; and the `term` of every `<category>`. */
  datatype AtomEntryElem = AtomEntryElem(
    published: Option<string>,
    updated: Option<string>,
    content: Option<string>,
    summary: Option<string>,
    linkHref: Option<string>,
    alternateHref: Option<string>,
    enclosureHref: Option<string>,
    enclosureType: Option<string>,
    title: Option<string>,
    categoryTerms: seq<string>)

  /** The host's `new Date(text)` (`None`: an invalid date) and
      `new URL(text)` (`None`: it throws). */
  datatype Host = Host(parseDate: string -> Option<int>, resolve: string -> Option<string>)

  /** enforceURL: an absolute URL, or null; `new URL(undefined)` throws. */
  function EnforceUrl(host: Host, s: Option<string>): Option<string> {
    if s.Some? then host.resolve(s.value) else None
  }

  /** The part of `s` before the first `c` (`s.split(c)[0]`). */
  function Before(s: string, c: char): (r: string)
    ensures c !in r
    ensures |r| <= |s| && r == s[..|r|]
    ensures |r| < |s| ==> s[|r|] == c
  {
    s[..IndexOf(s, c)]
  }

  /** The image URL taken from an enclosure: only when its type's part
      before `/` is exactly `image`. */
  function EnclosureImage(url: Option<string>, mediaType: Option<string>): (r: Option<string>)
    ensures r.Some? ==> r == url && mediaType.Some? && Before(mediaType.value, '/') == "image"
    ensures Truthy(mediaType) && Before(mediaType.value, '/') == "image" ==> r == url
  {
    if Truthy(mediaType) && Before(mediaType.value, '/') == "image" then url else None
  }

  /** parseJSONItem. The date is not checked here: an invalid date makes a
      `Date` object that is still truthy, and `processItems` drops it. */
  function ParseJSONItem(host: Host, json: JsonItemDoc): (r: Option<Entry>)
    ensures r.None? <==> !Truthy(EnforceUrl(host, json.url))
    ensures r.Some? ==>
      && Some(r.value.url) == EnforceUrl(host, json.url)
      && r.value.datePublished == (if json.datePublished.Some? then host.parseDate(json.datePublished.value) else None)
      && (json.contentHtml.Some? ==> r.value.contentHtml == json.contentHtml.value)
      && (json.contentHtml.None? && json.contentText.Some? ==> r.value.contentHtml == "<p>" + json.contentText.value + "</p>")
      && (json.contentHtml.None? && json.contentText.None? ==> r.value.contentHtml == "")
      && r.value.tags == json.tags.GetOr([])
      && r.value.imageUrl == json.image && r.value.title == json.title
  {
    var content :=
      if json.contentHtml.Some? then json.contentHtml.value
      else if json.contentText.Some? then "<p>" + json.contentText.value + "</p>"
      else "";
    var date := if json.datePublished.Some? then host.parseDate(json.datePublished.value) else None;
    var url := EnforceUrl(host, json.url);
    if !Truthy(url) then None
    else Some(Entry(url.value, json.title, content, json.image, json.tags.GetOr([]), date, None, None))
  }

  /** parseRSS2Item: `<content:encoded>` over `<description>`, neither
      wrapped; tags from the category texts in document order; null without
      a resolvable link or without a `<pubDate>`. */
  method ParseRSS2Item(host: Host, elem: RssItemElem) returns (r: Option<Entry>)
    ensures r.None? <==> !Truthy(elem.pubDate) || !Truthy(EnforceUrl(host, elem.link))
    ensures r.Some? ==>
      && Some(r.value.url) == EnforceUrl(host, elem.link)
      && r.value.datePublished == host.parseDate(elem.pubDate.value)
      && r.value.contentHtml == (if Truthy(elem.encoded) then elem.encoded.value
                                 else if Truthy(elem.description) then elem.description.value
                                 else "")
      && r.value.imageUrl == EnclosureImage(elem.enclosureUrl, elem.enclosureType)
      && r.value.title == (if Truthy(elem.title) then elem.title else None)
      && r.value.tags == elem.categories
      && r.value.feedTitle == None && r.value.feedId == None
  {
    var tags: seq<string> := [];
    var i := 0;
    while i < |elem.categories|
      invariant 0 <= i <= |elem.categories|
      invariant tags == elem.categories[..i]
    {
      tags := tags + [elem.categories[i]];
      i := i + 1;
    }
    var date: Option<Option<int>> := None;
    if Truthy(elem.pubDate) {
      date := Some(host.parseDate(elem.pubDate.value));
    }
    var content := "";
    if Truthy(elem.encoded) {
      content := elem.encoded.value;
    } else if Truthy(elem.description) {
      content := elem.description.value;
    }
    var image := EnclosureImage(elem.enclosureUrl, elem.enclosureType);
    var url := EnforceUrl(host, elem.link);
    if !Truthy(url) || date.None? {
      return None;
    }
    var title := if Truthy(elem.title) then elem.title else None;
    r := Some(Entry(url.value, title, content, image, tags, date.value, None, None));
  }

  /** parseATOMItem: date from `<published>`, else `<updated>`; URL from the
      alternate link, else the first link; `<content>` as is, else
      `<summary>` wrapped in `<p>`; null without a URL or a date. */
  method ParseATOMItem(host: Host, elem: AtomEntryElem) returns (r: Option<Entry>)
    ensures var url := if Truthy(elem.alternateHref) then EnforceUrl(host, elem.alternateHref)
                       else EnforceUrl(host, elem.linkHref);
      && (r.None? <==> (!Truthy(elem.published) && !Truthy(elem.updated)) || !Truthy(url))
      && (r.Some? ==> Some(r.value.url) == url)
    ensures r.Some? ==>
      && r.value.datePublished == (if Truthy(elem.published) then host.parseDate(elem.published.value)
                                   else host.parseDate(elem.updated.value))
      && r.value.contentHtml == (if Truthy(elem.content) then elem.content.value
                                 else if Truthy(elem.summary) then "<p>" + elem.summary.value + "</p>"
                                 else "")
      && r.value.imageUrl == EnclosureImage(elem.enclosureHref, elem.enclosureType)
      && r.value.title == (if Truthy(elem.title) then elem.title else None)
      && r.value.tags == elem.categoryTerms
      && r.value.feedTitle == None && r.value.feedId == None
  {
    var tags: seq<string> := [];
    var i := 0;
    while i < |elem.categoryTerms|
      invariant 0 <= i <= |elem.categoryTerms|
      invariant tags == elem.categoryTerms[..i]
    {
      tags := tags + [elem.categoryTerms[i]];
      i := i + 1;
    }
    var date: Option<Option<int>> := None;
    if Truthy(elem.published) {
      date := Some(host.parseDate(elem.published.value));
    } else if Truthy(elem.updated) {
      date := Some(host.parseDate(elem.updated.value));
    }
    var content := "";
    if Truthy(elem.content) {
      content := elem.content.value;
    } else if Truthy(elem.summary) {
      content := "<p>" + elem.summary.value + "</p>";
    }
    var image := EnclosureImage(elem.enclosureHref, elem.enclosureType);
    var url := if Truthy(elem.alternateHref) then EnforceUrl(host, elem.alternateHref)
               else EnforceUrl(host, elem.linkHref);
    if !Truthy(url) || date.None? {
      return None;
    }
    var title := if Truthy(elem.title) then elem.title else None;
    r := Some(Entry(url.value, title, content, image, tags, date.value, None, None));
  }

  // ---------------------------------------------------------------------
  // processItems

  /** The string-level sanitiser (`sanitizeText`, `sanitizeHtml`): the host
      parses the markup, the Sanitizer module's filter runs on the tree. */
  datatype Cleaners = Cleaners(text: string -> string, html: string -> string)

  /** The raw entries `processItems` looks at: at most `truncateItems` from
      the top, whatever they parse to. */
  function Examined<R>(rawItems: Option<seq<R>>, truncateItems: int): (w: seq<R>)
    ensures rawItems.None? ==> w == []
    ensures rawItems.Some? ==> |w| <= |rawItems.value| && w == rawItems.value[..|w|]
    ensures |w| <= if truncateItems <= 0 then 0 else truncateItems
  {
    if rawItems.None? || truncateItems <= 0 then []
    else if truncateItems >= |rawItems.value| then rawItems.value
    else rawItems.value[..truncateItems]
  }

  function ParseAll<R>(rs: seq<R>, parse: R -> Option<Entry>): (ps: seq<Option<Entry>>)
    ensures |ps| == |rs|
    ensures forall i :: 0 <= i < |rs| ==> ps[i] == parse(rs[i])
  {
    seq(|rs|, i requires 0 <= i < |rs| => parse(rs[i]))
  }

  /** Neither dated in the future nor older than `maxKeptPeriod` days
      (inclusive); an invalid date fails both comparisons. */
  predicate Recent(e: Entry, now: int, maxKeptPeriod: int) {
    e.datePublished.Some?
    && !(e.datePublished.value > now)
    && now - e.datePublished.value <= maxKeptPeriod * DayMs
  }

  /** The copy of the feed's title and id, and the sanitised title and
      body (`sanitizeText(undefined)` reads the text "undefined"). */
  function Stamp(e: Entry, feed: Feed, sanitize: bool, clean: Cleaners): Entry {
    e.(feedTitle := feed.title,
       feedId := feed.id,
       title := Some(clean.text(e.title.GetOr("undefined"))),
       contentHtml := if sanitize then clean.html(e.contentHtml) else e.contentHtml)
  }

  /** The parsed entries `processItems` keeps, stamped, in input order. */
  function Admitted(ps: seq<Option<Entry>>, feed: Feed, sanitize: bool, clean: Cleaners, now: int, maxKeptPeriod: int): seq<Entry>
  {
    if ps == [] then []
    else
      var last := ps[|ps| - 1];
      Admitted(ps[..|ps| - 1], feed, sanitize, clean, now, maxKeptPeriod)
      + (if last.Some? && Recent(last.value, now, maxKeptPeriod) then [Stamp(last.value, feed, sanitize, clean)] else [])
  }

  /** processItems: parse at most `truncateItems` raw entries, drop the null
      parses, the future-dated and the old ones, and stamp the rest with
      the feed's title and id. */
  method ProcessItems<R>(rawItems: Option<seq<R>>, feed: Feed, parse: R -> Option<Entry>, sanitize: bool,
                         clean: Cleaners, now: int, truncateItems: int, maxKeptPeriod: int)
    returns (items: seq<Entry>)
    ensures items == Admitted(ParseAll(Examined(rawItems, truncateItems), parse), feed, sanitize, clean, now, maxKeptPeriod)
    ensures |items| <= if truncateItems <= 0 then 0 else truncateItems
  {
    items := [];
    if rawItems.Some? {
      var raw := rawItems.value;
      var counter := 0;
      var i := 0;
      while i < |raw|
        invariant 0 <= i <= |raw|
        invariant counter == i
        invariant i == 0 || i <= truncateItems
        invariant items == Admitted(ParseAll(raw[..i], parse), feed, sanitize, clean, now, maxKeptPeriod)
      {
        if counter >= truncateItems {
          break;
        }
        counter := counter + 1;
        var item := parse(raw[i]);
        assert ParseAll(raw[..i + 1], parse)[..i] == ParseAll(raw[..i], parse);
        if item.None? {
        } else if item.value.datePublished.Some? && item.value.datePublished.value > now {
        } else if Recent(item.value, now, maxKeptPeriod) {
          items := items + [Stamp(item.value, feed, sanitize, clean)];
        }
        i := i + 1;
      }
      assert raw[..i] == Examined(rawItems, truncateItems);
    }
    AdmittedLength(ParseAll(Examined(rawItems, truncateItems), parse), feed, sanitize, clean, now, maxKeptPeriod);
  }

  lemma {:induction false} AdmittedLength(ps: seq<Option<Entry>>, feed: Feed, sanitize: bool, clean: Cleaners, now: int, maxKeptPeriod: int)
    ensures |Admitted(ps, feed, sanitize, clean, now, maxKeptPeriod)| <= |ps|
  {
    if ps != [] {
      AdmittedLength(ps[..|ps| - 1], feed, sanitize, clean, now, maxKeptPeriod);
    }
  }

  /** Dated within `[now - maxKeptPeriod days, now]` and stamped with the
      feed's title and id. */
  predicate KeptFor(r: seq<Entry>, feed: Feed, now: int, maxKeptPeriod: int) {
    forall k :: 0 <= k < |r| ==>
      && r[k].datePublished.Some?
      && now - maxKeptPeriod * DayMs <= r[k].datePublished.value <= now
      && r[k].feedId == feed.id && r[k].feedTitle == feed.title
  }

  /** Every kept item is recent and carries its feed's title and id. */
  lemma {:induction false} AdmittedSound(ps: seq<Option<Entry>>, feed: Feed, sanitize: bool, clean: Cleaners, now: int, maxKeptPeriod: int)
    ensures KeptFor(Admitted(ps, feed, sanitize, clean, now, maxKeptPeriod), feed, now, maxKeptPeriod)
  {
    if ps != [] {
      AdmittedSound(ps[..|ps| - 1], feed, sanitize, clean, now, maxKeptPeriod);
    }
  }

  /** Kept items keep their input order: the filter distributes over
      concatenation. */
  lemma {:induction false} AdmittedAppend(a: seq<Option<Entry>>, b: seq<Option<Entry>>, feed: Feed, sanitize: bool,
                                          clean: Cleaners, now: int, maxKeptPeriod: int)
    ensures Admitted(a + b, feed, sanitize, clean, now, maxKeptPeriod)
         == Admitted(a, feed, sanitize, clean, now, maxKeptPeriod) + Admitted(b, feed, sanitize, clean, now, maxKeptPeriod)
  {
    if b == [] {
      assert a + b == a;
    } else {
      assert (a + b)[..|a + b| - 1] == a + b[..|b| - 1];
      AdmittedAppend(a, b[..|b| - 1], feed, sanitize, clean, now, maxKeptPeriod);
    }
  }

  /** A parse that yields a recent entry keeps it. */
  lemma AdmittedSingle(e: Entry, feed: Feed, sanitize: bool, clean: Cleaners, now: int, maxKeptPeriod: int)
    ensures Admitted([Some(e)], feed, sanitize, clean, now, maxKeptPeriod)
         == if Recent(e, now, maxKeptPeriod) then [Stamp(e, feed, sanitize, clean)] else []
  {
    assert [Some(e)][..0] == [];
  }

  lemma {:induction false} AdmittedNothing(ps: seq<Option<Entry>>, feed: Feed, sanitize: bool, clean: Cleaners, now: int, maxKeptPeriod: int)
    requires forall i :: 0 <= i < |ps| ==> ps[i].None?
    ensures Admitted(ps, feed, sanitize, clean, now, maxKeptPeriod) == []
  {
    if ps != [] {
      AdmittedNothing(ps[..|ps| - 1], feed, sanitize, clean, now, maxKeptPeriod);
    }
  }

  /** Rejected entries count toward the cap: when the first `truncateItems`
      raw entries all fail to parse, nothing is kept, whatever follows. */
  lemma RejectedCountTowardCap<R>(raw: seq<R>, parse: R -> Option<Entry>, feed: Feed, sanitize: bool,
                                  clean: Cleaners, now: int, truncateItems: int, maxKeptPeriod: int)
    requires 0 <= truncateItems <= |raw|
    requires forall i :: 0 <= i < truncateItems ==> parse(raw[i]).None?
    ensures Admitted(ParseAll(Examined(Some(raw), truncateItems), parse), feed, sanitize, clean, now, maxKeptPeriod) == []
  {
    AdmittedNothing(ParseAll(Examined(Some(raw), truncateItems), parse), feed, sanitize, clean, now, maxKeptPeriod);
  }
}
