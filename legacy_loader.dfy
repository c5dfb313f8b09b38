/** The item parsers and `processItems` of src/loader.js, the React rewrite
    of the normaliser. The MIME tables and the three feed-head parsers there
    are the same as in public/loader.js and are shared with the Loader
    module. This version resolves no URL, wraps no missing body, does not
    sanitise, and keeps items from the top of the feed until the first stale
    one or until it has `MaxKeptItems` of them. */
module LegacyLoader {
  import opened Wrappers
  import opened Records
  import opened Loader

  /** The default cap of `MaxKeptItems`. */
  const MaxKeptItems: int := 100

  /** parseJSONItem: null without a body (`content_html`, else
      `content_text` wrapped in `<p>`) or without a truthy URL, which is
      taken as written. */
  function ParseJSONItem(parseDate: string -> Option<int>, json: JsonItemDoc): (r: Option<Entry>)
    ensures r.None? <==> (json.contentHtml.None? && json.contentText.None?) || !Truthy(json.url)
    ensures r.Some? ==>
      && r.value.url == json.url.value
      && r.value.datePublished == (if json.datePublished.Some? then parseDate(json.datePublished.value) else None)
      && (json.contentHtml.Some? ==> r.value.contentHtml == json.contentHtml.value)
      && (json.contentHtml.None? ==> r.value.contentHtml == "<p>" + json.contentText.value + "</p>")
      && r.value.tags == json.tags.GetOr([])
      && r.value.imageUrl == json.image && r.value.title == json.title
  {
    var date := if json.datePublished.Some? then parseDate(json.datePublished.value) else None;
    if json.contentHtml.None? && json.contentText.None? then None
    else if !Truthy(json.url) then None
    else
      var content := if json.contentHtml.Some? then json.contentHtml.value
                     else "<p>" + json.contentText.value + "</p>";
      Some(Entry(json.url.value, json.title, content, json.image, json.tags.GetOr([]), date, None, None))
  }

  /** parseRSS2Item: null only without a `<link>`; a missing `<pubDate>`
      leaves the date undefined. */
  method ParseRSS2Item(parseDate: string -> Option<int>, elem: RssItemElem) returns (r: Option<Entry>)
    ensures r.None? <==> !Truthy(elem.link)
    ensures r.Some? ==>
      && r.value.url == elem.link.value
      && r.value.datePublished == (if Truthy(elem.pubDate) then parseDate(elem.pubDate.value) else None)
      && r.value.contentHtml == (if Truthy(elem.encoded) then elem.encoded.value
                                 else if Truthy(elem.description) then elem.description.value
                                 else "")
      && r.value.imageUrl == EnclosureImage(elem.enclosureUrl, elem.enclosureType)
      && r.value.title == (if Truthy(elem.title) then elem.title else None)
      && r.value.tags == elem.categories
      && r.value.feedTitle == None && r.value.feedId == None
  {
    var tags: seq<string> := [];
    var i := 0;
    while i < |elem.categories|
      invariant 0 <= i <= |elem.categories|
      invariant tags == elem.categories[..i]
    {
      tags := tags + [elem.categories[i]];
      i := i + 1;
    }
    var date: Option<int> := None;
    if Truthy(elem.pubDate) {
      date := parseDate(elem.pubDate.value);
    }
    var content := "";
    if Truthy(elem.encoded) {
      content := elem.encoded.value;
    } else if Truthy(elem.description) {
      content := elem.description.value;
    }
    var image := EnclosureImage(elem.enclosureUrl, elem.enclosureType);
    if !Truthy(elem.link) {
      return None;
    }
    var title := if Truthy(elem.title) then elem.title else None;
    r := Some(Entry(elem.link.value, title, content, image, tags, date, None, None));
  }

  /** parseATOMItem: the alternate link, else the first link, else null. */
  method ParseATOMItem(parseDate: string -> Option<int>, elem: AtomEntryElem) returns (r: Option<Entry>)
    ensures r.None? <==> !Truthy(elem.alternateHref) && !Truthy(elem.linkHref)
    ensures r.Some? ==>
      && r.value.url == (if Truthy(elem.alternateHref) then elem.alternateHref.value else elem.linkHref.value)
      && r.value.datePublished == (if Truthy(elem.published) then parseDate(elem.published.value)
                                   else if Truthy(elem.updated) then parseDate(elem.updated.value)
                                   else None)
      && r.value.contentHtml == (if Truthy(elem.content) then elem.content.value
                                 else if Truthy(elem.summary) then "<p>" + elem.summary.value + "</p>"
                                 else "")
      && r.value.imageUrl == EnclosureImage(elem.enclosureHref, elem.enclosureType)
      && r.value.title == (if Truthy(elem.title) then elem.title else None)
      && r.value.tags == elem.categoryTerms
      && r.value.feedTitle == None && r.value.feedId == None
  {
    var tags: seq<string> := [];
    var i := 0;
    while i < |elem.categoryTerms|
      invariant 0 <= i <= |elem.categoryTerms|
      invariant tags == elem.categoryTerms[..i]
    {
      tags := tags + [elem.categoryTerms[i]];
      i := i + 1;
    }
    var date: Option<int> := None;
    if Truthy(elem.published) {
      date := parseDate(elem.published.value);
    } else if Truthy(elem.updated) {
      date := parseDate(elem.updated.value);
    }
    var content := "";
    if Truthy(elem.content) {
      content := elem.content.value;
    } else if Truthy(elem.summary) {
      content := "<p>" + elem.summary.value + "</p>";
    }
    var image := EnclosureImage(elem.enclosureHref, elem.enclosureType);
    var url: string;
    if Truthy(elem.alternateHref) {
      url := elem.alternateHref.value;
    } else if Truthy(elem.linkHref) {
      url := elem.linkHref.value;
    } else {
      return None;
    }
    var title := if Truthy(elem.title) then elem.title else None;
    r := Some(Entry(url, title, content, image, tags, date, None, None));
  }

  /** `now - datePublished <= MaxKeptPeriod days`: a future date passes, an
      undefined or invalid one (NaN) does not. */
  predicate Fresh(e: Entry, now: int, maxKeptPeriod: int) {
    e.datePublished.Some? && now - e.datePublished.value <= maxKeptPeriod * DayMs
  }

  function StampFeed(e: Entry, feed: Feed): Entry {
    e.(feedTitle := feed.title, feedId := feed.id)
  }

  /** The items kept from parsed entries `ps` with room for `room` more:
      null parses are skipped, the first stale entry ends the scan, and so
      does the item that fills the room. */
  function Taken(ps: seq<Option<Entry>>, feed: Feed, now: int, maxKeptPeriod: int, room: int): seq<Entry>
  {
    if ps == [] then []
    else if ps[0].None? then Taken(ps[1..], feed, now, maxKeptPeriod, room)
    else if !Fresh(ps[0].value, now, maxKeptPeriod) then []
    else if room <= 1 then [StampFeed(ps[0].value, feed)]
    else [StampFeed(ps[0].value, feed)] + Taken(ps[1..], feed, now, maxKeptPeriod, room - 1)
  }

  /** processItems of src/loader.js. */
  method ProcessItems<R>(rawItems: seq<R>, feed: Feed, parse: R -> Option<Entry>, now: int,
                         maxKeptItems: int, maxKeptPeriod: int)
    returns (items: seq<Entry>)
    ensures items == Taken(ParseAll(rawItems, parse), feed, now, maxKeptPeriod, maxKeptItems)
  {
    ghost var ps := ParseAll(rawItems, parse);
    items := [];
    var i := 0;
    while i < |rawItems|
      invariant 0 <= i <= |rawItems|
      invariant items == [] || |items| < maxKeptItems
      invariant items + Taken(ps[i..], feed, now, maxKeptPeriod, maxKeptItems - |items|)
             == Taken(ps, feed, now, maxKeptPeriod, maxKeptItems)
    {
      var item := parse(rawItems[i]);
      assert ps[i..][0] == item;
      assert ps[i..][1..] == ps[i + 1..];
      if item.None? {
        i := i + 1;
        continue;
      }
      if Fresh(item.value, now, maxKeptPeriod) {
        var room := maxKeptItems - |items|;
        items := items + [StampFeed(item.value, feed)];
        if |items| >= maxKeptItems {
          break;
        }
        assert room > 1;
      } else {
        break;
      }
      i := i + 1;
    }
  }

  /** The cap: never more than `maxKeptItems` items, and never more than one
      when the cap is not positive. */
  lemma {:induction false} TakenBounded(ps: seq<Option<Entry>>, feed: Feed, now: int, maxKeptPeriod: int, room: int)
    ensures |Taken(ps, feed, now, maxKeptPeriod, room)| <= if room <= 1 then 1 else room
    ensures |Taken(ps, feed, now, maxKeptPeriod, room)| <= |ps|
  {
    if ps != [] {
      TakenBounded(ps[1..], feed, now, maxKeptPeriod, room);
      TakenBounded(ps[1..], feed, now, maxKeptPeriod, room - 1);
    }
  }

  /** A stale entry ends the scan: nothing after it is ever kept. */
  lemma {:induction false} StaleEndsScan(ps: seq<Option<Entry>>, i: int, feed: Feed, now: int, maxKeptPeriod: int, room: int)
    requires 0 <= i < |ps| && ps[i].Some? && !Fresh(ps[i].value, now, maxKeptPeriod)
    ensures Taken(ps, feed, now, maxKeptPeriod, room) == Taken(ps[..i], feed, now, maxKeptPeriod, room)
  {
    if i > 0 {
      assert ps[..i][0] == ps[0];
      assert ps[..i][1..] == ps[1..][..i - 1];
      StaleEndsScan(ps[1..], i - 1, feed, now, maxKeptPeriod, room);
      StaleEndsScan(ps[1..], i - 1, feed, now, maxKeptPeriod, room - 1);
    }
  }

  /** What the rewrite changed: a stale entry at the top hides a fresh one
      behind it, which public/loader.js keeps; and a future-dated entry is
      kept, which public/loader.js drops. */
  lemma DifferencesFromPublic(stale: Entry, recent: Entry, future: Entry, feed: Feed, now: int, maxKeptPeriod: int)
    requires maxKeptPeriod >= 0
    requires stale.datePublished == Some(now - maxKeptPeriod * DayMs - 1)
    requires recent.datePublished == Some(now)
    requires future.datePublished == Some(now + 1)
    ensures Taken([Some(stale), Some(recent)], feed, now, maxKeptPeriod, MaxKeptItems) == []
    ensures Admitted([Some(stale), Some(recent)], feed, false, Cleaners(s => s, s => s), now, maxKeptPeriod) != []
    ensures Taken([Some(future)], feed, now, maxKeptPeriod, MaxKeptItems) == [StampFeed(future, feed)]
    ensures Admitted([Some(future)], feed, false, Cleaners(s => s, s => s), now, maxKeptPeriod) == []
  {
    var clean := Cleaners(s => s, s => s);
    AdmittedAppend([Some(stale)], [Some(recent)], feed, false, clean, now, maxKeptPeriod);
    assert [Some(stale)] + [Some(recent)] == [Some(stale), Some(recent)];
    AdmittedSingle(stale, feed, false, clean, now, maxKeptPeriod);
    AdmittedSingle(recent, feed, false, clean, now, maxKeptPeriod);
    AdmittedSingle(future, feed, false, clean, now, maxKeptPeriod);
    assert [Some(future)][1..] == [];
  }
}
