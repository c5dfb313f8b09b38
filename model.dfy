/** The engine of public/airss_model.js: the fetch-candidate gate
    (`try_load`), the merge of a freshly loaded feed into the timeline
    (`cb_updateFeed`) and the entry points that move, delete and
    unsubscribe on behalf of the controller. The promise chain that
    serialises the entry points becomes plain sequential calls; the loader
    request that `try_load` starts is returned to the caller; settings read
    from `localStorage`, the clock and `Math.random` placeholder URLs are
    parameters. */
module AirssModel {
  import opened Wrappers
  import opened Records
  import opened Seqs
  import opened ObjectStore
  import opened Feeds
  import opened ItemSpecs
  import opened Items

  /** The numeric settings as `parseInt` read them from `localStorage`
      (`None` for a missing or unparsable value). */
  datatype Settings = Settings(
    maxKeptPeriod: Option<int>,
    maxKeptItems: Option<int>,
    waterMark: Option<int>,
    minReloadWait: Option<int>)

  /** What `try_load` did: each way of starting nothing, or the started
      load of `feed`, whose already stored item URLs go with it. `NoRecord`
      is the head feed missing from the store, on which `Feeds.get` throws. */
  datatype Gate =
    | Busy
    | Enough
    | NoFeed
    | NoRecord
    | TooSoon
    | Started(feed: Feed, urls: seq<string>)

  /** How `cb_updateFeed` ended: merged with `num` new timeline items and
      the feed record as stored, then what the closing `try_load` did; or stopped by a store conflict that the
      source does not catch (on the placeholder or on the final `put`). */
  datatype Merge = Merged(feed: Feed, num: int, next: Gate) | Aborted

  /** The placeholder a merge pushes, if any. */
  datatype Placeholder = NoPlaceholder | Oops | Quiet

  /** A parsed entry as `cb_updateFeed` pushes it: stamped with the id of
      its feed and, like every new record, unread. */
  function Stamp(e: Entry, feedId: Id): (item: Item)
    ensures item.feedId == feedId && item.url == e.url && !item.read
    ensures item.tags == e.tags && item.datePublished == e.datePublished
  {
    Item(feedId, e.feedTitle, e.url, e.title, e.contentHtml, e.imageUrl, e.tags, e.datePublished, false)
  }

  /** The entries a merge stores, in the order it stores them: it tries
      the last entry first and skips every entry whose URL is already
      stored, including one stored by an earlier entry of the same batch. */
  function Accepted(es: seq<Entry>, taken: set<string>): seq<Entry> {
    if es == [] then []
    else
      var e := es[|es| - 1];
      (if e.url in taken then [] else [e]) + Accepted(es[..|es| - 1], taken + {e.url})
  }

  /** Every stored entry comes from the batch, so at most the batch is
      stored. */
  lemma {:induction false} AcceptedFrom(es: seq<Entry>, taken: set<string>)
    ensures |Accepted(es, taken)| <= |es|
    ensures forall i :: 0 <= i < |Accepted(es, taken)| ==> Accepted(es, taken)[i] in es
  {
    if es != [] {
      var init, e := es[..|es| - 1], es[|es| - 1];
      AcceptedFrom(init, taken + {e.url});
      var rest := Accepted(init, taken + {e.url});
      var head := if e.url in taken then [] else [e];
      var a := head + rest;
      forall i | 0 <= i < |a| ensures a[i] in es {
        if i < |head| {
          assert a[i] == es[|es| - 1];
        } else {
          assert a[i] == rest[i - |head|];
          assert rest[i - |head|] in init;
        }
      }
    }
  }

  /** The stored entries have URLs not stored before, and distinct ones:
      the unique index takes each URL once. */
  lemma {:induction false} AcceptedNew(es: seq<Entry>, taken: set<string>)
    ensures forall i :: 0 <= i < |Accepted(es, taken)| ==> Accepted(es, taken)[i].url !in taken
    ensures forall i, j :: 0 <= i < j < |Accepted(es, taken)| ==> Accepted(es, taken)[i].url != Accepted(es, taken)[j].url
  {
    if es != [] {
      var init, e := es[..|es| - 1], es[|es| - 1];
      AcceptedNew(init, taken + {e.url});
      var rest := Accepted(init, taken + {e.url});
      var head := if e.url in taken then [] else [e];
      var a := head + rest;
      forall i | 0 <= i < |a| ensures a[i].url !in taken {
        if i >= |head| {
          assert a[i] == rest[i - |head|];
        }
      }
      forall i, j | 0 <= i < j < |a| ensures a[i].url != a[j].url {
        assert a[j] == rest[j - |head|];
        if i >= |head| {
          assert a[i] == rest[i - |head|];
        }
      }
    }
  }

  /** Every URL of the batch that was not stored before is stored: entry
      `i` ends up at index `j` of the stored entries. */
  lemma {:induction false} AcceptedCoversAt(es: seq<Entry>, taken: set<string>, i: int) returns (j: int)
    requires 0 <= i < |es| && es[i].url !in taken
    ensures 0 <= j < |Accepted(es, taken)| && Accepted(es, taken)[j].url == es[i].url
  {
    var init, e := es[..|es| - 1], es[|es| - 1];
    var t' := taken + {e.url};
    var head := if e.url in taken then [] else [e];
    assert Accepted(es, taken) == head + Accepted(init, t');
    if es[i].url == e.url {
      j := 0;
    } else {
      assert init[i] == es[i];
      var k := AcceptedCoversAt(init, t', i);
      j := |head| + k;
    }
  }

  /** `oopsItem`: the placeholder of a failed load. */
  function OopsItem(feed: Feed, feedId: Id, now: int, url: string): (item: Item)
    ensures IsDummyItem(item) && item.feedId == feedId && item.datePublished == Some(now) && !item.read
  {
    Item(feedId, feed.title, url, Some("Oops..."),
      "If you see this, this feed '" + feed.feedUrl + "' failed loading: Check the console for the detail error.",
      None, ["_error"], Some(now), false)
  }

  /** `dummyItem`: the placeholder of a feed that stayed quiet too long;
      `fetched` is the text of its last fetch time. */
  function QuietItem(feed: Feed, feedId: Id, now: int, url: string, fetched: string): (item: Item)
    ensures IsDummyItem(item) && item.feedId == feedId && item.datePublished == Some(now) && !item.read
  {
    Item(feedId, feed.title, url, Some("Errrr..."),
      "If you see this, this feed '" + feed.feedUrl + "' hasn't been updated since " + fetched +
      ". There is nothing wrong, just too quiet.",
      None, ["_error"], Some(now), false)
  }

  /** The placeholder decision: an error always gets one; otherwise a load
      that added nothing to a feed last fetched more than `maxKeptPeriod`
      days ago gets one. */
  function PlaceholderFor(feed: Feed, num: int, now: int, maxKeptPeriod: int): (p: Placeholder)
    ensures p == Oops <==> Truthy(feed.error)
    ensures p == Quiet ==> num == 0 && feed.lastFetchTime.Some?
    ensures p == NoPlaceholder <==>
      !Truthy(feed.error) && !(num == 0 && feed.lastFetchTime.Some? && feed.lastFetchTime.value < now - maxKeptPeriod * DayMs)
  {
    if Truthy(feed.error) then Oops
    else if num == 0 && feed.lastFetchTime.Some? && feed.lastFetchTime.value < now - maxKeptPeriod * DayMs then Quiet
    else NoPlaceholder
  }

  /** A feed without an id is new: the merge stamps both load times with
      `now` before it adds the feed. */
  function Fresh(feed: Feed, now: int): Feed {
    if feed.id.None? then feed.(lastLoadTime := now, lastFetchTime := Some(now)) else feed
  }

  /** A URL in the feed store's index belongs to a stored feed. */
  lemma FeedUrlStored(db: Store<Feed>, u: string)
    requires db.Valid() && FeedIndex(db) && db.HasUrl(u)
    ensures exists k :: k in db.records && db.records[k].feedUrl == u
  {
    var k :| k in db.urls && db.urls[k] == u;
    assert k in db.records;
  }

  /** A stored feed's URL belongs to no other stored feed. */
  lemma FeedUrlOwnedBy(db: Store<Feed>, k: Id)
    requires db.Valid() && FeedIndex(db) && k in db.records
    ensures forall j :: j in db.records && j != k ==> db.records[j].feedUrl != db.records[k].feedUrl
  {
    forall j | j in db.records && j != k ensures db.records[j].feedUrl != db.records[k].feedUrl {
      assert db.urls[j] == db.records[j].feedUrl && db.urls[k] == db.records[k].feedUrl;
    }
  }

  /** The placeholder item of kind `p`, if there is one. */
  function PlaceholderItem(p: Placeholder, feed: Feed, feedId: Id, now: int, url: string, fetched: string): (r: Option<Item>)
    ensures r.None? <==> p == NoPlaceholder
    ensures r.Some? ==> IsDummyItem(r.value) && r.value.url == url && r.value.feedId == feedId
  {
    if p == NoPlaceholder then None
    else if p == Oops then Some(OopsItem(feed, feedId, now, url))
    else Some(QuietItem(feed, feedId, now, url, fetched))
  }

  /** The records `recs` after pushes over `recs0`: under `keys`, the
      stamped entries `acc` and then the placeholder `extra` if there is
      one; older records untouched. */
  ghost predicate MergedRecords(acc: seq<Entry>, feedId: Id, extra: Option<Item>, recs0: map<Id, Item>,
    keys: seq<Id>, recs: map<Id, Item>)
  {
    && |keys| == |acc| + (if extra.Some? then 1 else 0)
    && (forall j :: 0 <= j < |acc| ==> keys[j] in recs && recs[keys[j]] == Stamp(acc[j], feedId))
    && (extra.Some? ==> keys[|acc|] in recs && recs[keys[|acc|]] == extra.value)
    && (forall x :: x in recs0 ==> x in recs && recs[x] == recs0[x])
  }

  /** What the pushes of a merge for the feed `f` did, from the timeline
      `items0` over the records `recs0`: `num` new ids `added` at the end
      of the timeline, holding the stamped accepted entries and then the
      placeholder if there is one; older records are untouched. */
  ghost predicate ItemsMerged(f: Feed, entries: seq<Entry>, now: int, maxKeptPeriod: int, placeholderUrl: string,
    fetched: string, items0: seq<Id>, recs0: map<Id, Item>, num: int, added: seq<Id>,
    items: seq<Id>, recs: map<Id, Item>)
    requires f.id.Some?
  {
    var acc := Accepted(entries, RecUrls(recs0));
    var p := PlaceholderFor(f, |acc|, now, maxKeptPeriod);
    && num == |acc| + (if p == NoPlaceholder then 0 else 1)
    && items == items0 + added
    && MergedRecords(acc, f.id.value, PlaceholderItem(p, f, f.id.value, now, placeholderUrl, fetched), recs0, added, recs)
  }

  /** The feed record a merge of `num` new items stores: both load times
      `now` for a new feed, `lastLoadTime` always `now`, `lastFetchTime`
      `now` when items were added, and the error text gone. */
  ghost predicate FeedMerged(feed: Feed, now: int, num: int, g: Feed) {
    var base := Fresh(feed, now);
    && g.id.Some? && (feed.id.Some? ==> g.id == feed.id)
    && g == base.(id := g.id, lastLoadTime := now,
                  lastFetchTime := if num > 0 then Some(now) else base.lastFetchTime,
                  error := if Truthy(feed.error) then None else feed.error)
  }

  /** `ItemsMerged` carried over to equal timeline and records. */
  lemma ItemsMergedKept(f: Feed, entries: seq<Entry>, now: int, maxKeptPeriod: int, placeholderUrl: string,
    fetched: string, items0: seq<Id>, recs0: map<Id, Item>, num: int, added: seq<Id>,
    items: seq<Id>, recs: map<Id, Item>, items': seq<Id>, recs': map<Id, Item>)
    requires f.id.Some? && items' == items && recs' == recs
    requires ItemsMerged(f, entries, now, maxKeptPeriod, placeholderUrl, fetched, items0, recs0, num, added, items, recs)
    ensures ItemsMerged(f, entries, now, maxKeptPeriod, placeholderUrl, fetched, items0, recs0, num, added, items', recs')
  {
  }

  /** The push loop and the placeholder step make `MergedRecords`. */
  lemma BatchRecords(feedId: Id, acc: seq<Entry>, recs0: map<Id, Item>, pushed: seq<Id>, recs1: map<Id, Item>,
    extra: Option<Item>, more: seq<Id>, recs: map<Id, Item>)
    requires |pushed| == |acc|
    requires forall j :: 0 <= j < |acc| ==> pushed[j] in recs1 && recs1[pushed[j]] == Stamp(acc[j], feedId)
    requires forall x :: x in recs0 ==> x in recs1 && recs1[x] == recs0[x]
    requires extra.None? ==> more == [] && recs == recs1
    requires extra.Some? ==> |more| == 1 && more[0] !in recs1 && recs == recs1[more[0] := extra.value]
    ensures MergedRecords(acc, feedId, extra, recs0, pushed + more, recs)
  {
    if extra.None? {
      assert pushed + more == pushed;
    } else {
      var keys := pushed + more;
      assert keys[|acc|] == more[0];
      forall j | 0 <= j < |acc| ensures keys[j] in recs && recs[keys[j]] == Stamp(acc[j], feedId) {
        assert keys[j] == pushed[j] && pushed[j] in recs1;
      }
    }
  }

  lemma AppendAssoc<T>(a: seq<T>, b: seq<T>, c: seq<T>)
    ensures (a + b) + c == a + (b + c)
  {
  }

  /** The URLs of stored item records. */
  ghost function RecUrls(recs: map<Id, Item>): set<string> {
    set k | k in recs :: recs[k].url
  }

  /** The unique index holds exactly the URLs of the records. */
  lemma HasUrlRecs(db: Store<Item>, u: string)
    requires db.Valid() && ItemIndex(db)
    ensures db.HasUrl(u) <==> u in RecUrls(db.records)
  {
    if u in RecUrls(db.records) {
      var k :| k in db.records && db.records[k].url == u;
      assert k in db.urls && db.urls[k] == u;
    }
  }

  /** A record under a new key adds its URL. */
  lemma RecUrlsAdd(recs: map<Id, Item>, k: Id, item: Item)
    requires k !in recs
    ensures RecUrls(recs[k := item]) == RecUrls(recs) + {item.url}
  {
    var r := recs[k := item];
    forall u | u in RecUrls(recs) ensures u in RecUrls(r) {
      var j :| j in recs && recs[j].url == u;
      assert r[j].url == u;
    }
    assert r[k].url == item.url;
  }

  /** The state of the push loop with `entries[..i]` still to go: the
      timeline grew by `added`, the stamped records of the entries `acc`
      accepted so far, which with what the rest will accept makes the
      whole batch's accepted entries; older records stay as they were. */
  ghost predicate Pushed(entries: seq<Entry>, feedId: Id, items0: seq<Id>, recs0: map<Id, Item>, i: int,
    acc: seq<Entry>, added: seq<Id>, items: seq<Id>, recs: map<Id, Item>)
    requires 0 <= i <= |entries|
  {
    && items == items0 + added
    && acc + Accepted(entries[..i], RecUrls(recs)) == Accepted(entries, RecUrls(recs0))
    && |added| == |acc|
    && (forall j :: 0 <= j < |added| ==> added[j] in recs && recs[added[j]] == Stamp(acc[j], feedId))
    && (forall x :: x in recs0 ==> x in recs && recs[x] == recs0[x])
  }

  /** One push keeps `Pushed`: the entry is accepted exactly when its URL
      is new, and then its record is stored under a new key. */
  lemma PushedStep(entries: seq<Entry>, feedId: Id, items0: seq<Id>, recs0: map<Id, Item>, i: int,
    acc: seq<Entry>, added: seq<Id>, items: seq<Id>, recs: map<Id, Item>,
    item: Item, id: Option<Id>, items': seq<Id>, recs': map<Id, Item>)
    returns (acc': seq<Entry>, added': seq<Id>)
    requires 0 < i <= |entries|
    requires Pushed(entries, feedId, items0, recs0, i, acc, added, items, recs)
    requires item == Stamp(entries[i - 1], feedId)
    requires id.None? <==> item.url in RecUrls(recs)
    requires id.None? ==> items' == items && recs' == recs
    requires id.Some? ==> id.value !in recs && items' == items + [id.value] && recs' == recs[id.value := item]
    ensures Pushed(entries, feedId, items0, recs0, i - 1, acc', added', items', recs')
  {
    var e := entries[i - 1];
    acc' := acc + (if id.Some? then [e] else []);
    added' := added + (if id.Some? then [id.value] else []);
    assert entries[..i][..i - 1] == entries[..i - 1];
    var rest := Accepted(entries[..i - 1], RecUrls(recs) + {e.url});
    assert Accepted(entries[..i], RecUrls(recs)) == (if id.Some? then [e] else []) + rest;
    if id.Some? {
      RecUrlsAdd(recs, id.value, Stamp(e, feedId));
      assert acc + ([e] + rest) == (acc + [e]) + rest;
      assert items0 + (added + [id.value]) == items0 + added + [id.value];
      forall j | 0 <= j < |added'| ensures added'[j] in recs' && recs'[added'[j]] == Stamp(acc'[j], feedId) {
        if j < |added| {
          assert added'[j] == added[j] && acc'[j] == acc[j];
        }
      }
    } else {
      assert RecUrls(recs) + {e.url} == RecUrls(recs);
      assert acc + ([] + rest) == acc + rest;
      assert added + [] == added && acc + [] == acc;
    }
  }

  /** Before the push loop nothing is accepted yet. */
  lemma PushedStart(entries: seq<Entry>, feedId: Id, items: seq<Id>, recs: map<Id, Item>)
    ensures Pushed(entries, feedId, items, recs, |entries|, [], [], items, recs)
  {
    assert entries[..|entries|] == entries;
    assert items + [] == items;
  }

  /** At the end of the push loop the accepted entries are the batch's. */
  lemma PushedDone(entries: seq<Entry>, feedId: Id, items0: seq<Id>, recs0: map<Id, Item>,
    acc: seq<Entry>, added: seq<Id>, items: seq<Id>, recs: map<Id, Item>)
    requires Pushed(entries, feedId, items0, recs0, 0, acc, added, items, recs)
    ensures Pushed(entries, feedId, items0, recs0, 0, Accepted(entries, RecUrls(recs0)), added, items, recs)
  {
    assert entries[..0] == [];
    assert acc + [] == acc;
  }

  /** What the push loop leaves, spelled out. */
  lemma PushedFacts(entries: seq<Entry>, feedId: Id, items0: seq<Id>, recs0: map<Id, Item>, acc: seq<Entry>,
    pushed: seq<Id>, items1: seq<Id>, recs1: map<Id, Item>)
    requires Pushed(entries, feedId, items0, recs0, 0, acc, pushed, items1, recs1)
    ensures acc == Accepted(entries, RecUrls(recs0)) && items1 == items0 + pushed && |pushed| == |acc|
    ensures forall j :: 0 <= j < |acc| ==> pushed[j] in recs1 && recs1[pushed[j]] == Stamp(acc[j], feedId)
    ensures forall x :: x in recs0 ==> x in recs1 && recs1[x] == recs0[x]
  {
    assert entries[..0] == [];
    assert acc + [] == acc;
  }

  /** Setting the flag of an item keeps the per-feed sets in step. */
  lemma IndexedMark(itemSet: map<Id, set<Id>>, recs: map<Id, Item>, x: Id)
    requires IndexedOn(itemSet, recs) && x in recs
    ensures IndexedOn(itemSet, recs[x := recs[x].(read := true)])
  {
    var r := recs[x := recs[x].(read := true)];
    forall g, y | y in SetOf(itemSet, g) ensures y in r && r[y].feedId == g {
    }
    forall y | y in r ensures y in SetOf(itemSet, r[y].feedId) {
      assert r[y].feedId == recs[y].feedId;
    }
  }

  class Engine {
    /** `loadingOutstanding`: a load was started and its merge has not
        arrived yet. */
    var loadingOutstanding: bool
    const timeline: Timeline
    const registry: Registry
    const itemStore: Store<Item>
    const feedStore: Store<Feed>

    constructor(timeline: Timeline, registry: Registry, itemStore: Store<Item>, feedStore: Store<Feed>)
      ensures this.timeline == timeline && this.registry == registry
      ensures this.itemStore == itemStore && this.feedStore == feedStore
      ensures !loadingOutstanding
    {
      this.timeline := timeline;
      this.registry := registry;
      this.itemStore := itemStore;
      this.feedStore := feedStore;
      loadingOutstanding := false;
    }

    /** Both stores keep their indexes, the timeline mirrors the item store
        with its cursor on an item, and the registry's per-feed sets agree
        with the item records. */
    ghost predicate Valid()
      reads timeline, registry, itemStore, feedStore
    {
      && timeline.Valid(itemStore) && timeline.CursorOk()
      && IndexedOn(registry.itemSet, itemStore.records)
      && feedStore.Valid() && FeedIndex(feedStore)
    }

    /** `try_load`: nothing starts while a load is outstanding, while more
        than `waterMark` items are unread, without a feed, or while the
        head feed was loaded less than `minReloadWait` hours ago; otherwise
        the rotation turns once, the flag is set, and the head feed goes to
        the loader with the URLs of its stored items. */
    method TryLoad(now: int, settings: Settings) returns (gate: Gate)
      requires Valid()
      modifies this, registry
      ensures Valid()
      ensures registry.itemSet == old(registry.itemSet)
      ensures var waterMark := ParsedOr(settings.waterMark, 10);
        var minReloadWait := ParsedOr(settings.minReloadWait, 12);
        var feeds := old(registry.feeds);
        && (gate == Busy <==> old(loadingOutstanding))
        && (gate == Enough <==> !old(loadingOutstanding) && timeline.UnreadCount() > waterMark)
        && (gate == NoFeed <==>
            !old(loadingOutstanding) && timeline.UnreadCount() <= waterMark && feeds == [])
        && (gate == NoRecord <==>
            !old(loadingOutstanding) && timeline.UnreadCount() <= waterMark && feeds != []
            && feeds[0] !in feedStore.records)
        && (gate == TooSoon <==>
            !old(loadingOutstanding) && timeline.UnreadCount() <= waterMark && feeds != []
            && feeds[0] in feedStore.records
            && feedStore.records[feeds[0]].lastLoadTime > now - minReloadWait * HourMs)
        && (gate.Started? ==>
            && registry.feeds == Rotated(feeds)
            && loadingOutstanding
            && gate.feed == registry.Get(feedStore, feeds[0])
            && (forall u :: u in gate.urls <==> u in UrlsOf(registry.ItemsOf(feeds[0]), itemStore.records))
            && Distinct(gate.urls))
        && (!gate.Started? ==> registry.feeds == feeds && loadingOutstanding == old(loadingOutstanding))
    {
      var waterMark := ParsedOr(settings.waterMark, 10);
      var minReloadWait := ParsedOr(settings.minReloadWait, 12);
      var head := registry.First();
      if loadingOutstanding {
        gate := Busy;
      } else if timeline.UnreadCount() > waterMark {
        gate := Enough;
      } else if head.None? {
        gate := NoFeed;
      } else if head.value !in feedStore.records {
        gate := NoRecord;
      } else if registry.Get(feedStore, head.value).lastLoadTime > now - minReloadWait * HourMs {
        gate := TooSoon;
      } else {
        gate := StartLoad(head.value);
      }
    }

    /** The tail of `try_load` once the gate is open: rotate, collect the
        stored URLs of the head feed, set the flag. */
    method StartLoad(feedId: Id) returns (gate: Gate)
      requires Valid() && registry.feeds != [] && registry.feeds[0] == feedId && feedId in feedStore.records
      modifies this, registry
      ensures Valid()
      ensures registry.itemSet == old(registry.itemSet) && registry.feeds == Rotated(old(registry.feeds))
      ensures loadingOutstanding
      ensures gate.Started? && gate.feed == registry.Get(feedStore, feedId)
      ensures forall u :: u in gate.urls <==> u in UrlsOf(registry.ItemsOf(feedId), itemStore.records)
      ensures Distinct(gate.urls)
    {
      var feed := registry.Get(feedStore, feedId);
      RotateFeeds();
      var urls := StoredUrls(feedId);
      loadingOutstanding := true;
      gate := Started(feed, urls);
    }

    /** `cb_updateFeed`: clear the flag, merge, then `try_load` again. A
        store conflict on the placeholder or on the `put` is not caught
        and ends the merge before the `try_load`. */
    method UpdateFeed(feed: Feed, entries: seq<Entry>, now: int, settings: Settings,
      placeholderUrl: string, fetched: string)
      returns (merge: Merge, ghost added: seq<Id>)
      requires Valid()
      modifies this, timeline, registry, itemStore, feedStore
      ensures Valid()
      ensures merge.Aborted? ==> !loadingOutstanding
      ensures merge.Merged? ==> merge.next != Busy && (loadingOutstanding <==> merge.next.Started?)
      ensures merge.Merged? ==>
        && FeedMerged(feed, now, merge.num, merge.feed)
        && ItemsMerged(Fresh(feed, now).(id := merge.feed.id), entries, now, ParsedOr(settings.maxKeptPeriod, 180),
             placeholderUrl, fetched, old(timeline.items), old(itemStore.records), merge.num, added,
             timeline.items, itemStore.records)
        && merge.feed.id.value in feedStore.records && feedStore.records[merge.feed.id.value] == merge.feed
      ensures merge.Aborted? ==>
        || PlaceholderFor(Fresh(feed, now), |Accepted(entries, RecUrls(old(itemStore.records)))|, now,
             ParsedOr(settings.maxKeptPeriod, 180)) != NoPlaceholder
        || feed.id.Some?
    {
      loadingOutstanding := false;
      var ok, g, total;
      ok, g, total, added := MergeFeed(feed, entries, now, ParsedOr(settings.maxKeptPeriod, 180), placeholderUrl, fetched);
      if ok {
        ghost var items, recs := timeline.items, itemStore.records;
        var next := Reload(now, settings);
        merge := Merged(g, total, next);
        ItemsMergedKept(Fresh(feed, now).(id := merge.feed.id), entries, now, ParsedOr(settings.maxKeptPeriod, 180),
          placeholderUrl, fetched, old(timeline.items), old(itemStore.records), merge.num, added,
          items, recs, timeline.items, itemStore.records);
      } else {
        merge := Aborted;
      }
    }

    /** The trailing `try_load` of `cb_updateFeed`, which runs with the flag
        cleared and so never finds the engine busy. */
    method Reload(now: int, settings: Settings) returns (next: Gate)
      requires Valid() && !loadingOutstanding
      modifies this, registry
      ensures Valid()
      ensures registry.itemSet == old(registry.itemSet)
      ensures timeline.items == old(timeline.items) && itemStore.records == old(itemStore.records)
      ensures feedStore.records == old(feedStore.records)
      ensures next != Busy && (loadingOutstanding <==> next.Started?)
    {
      next := TryLoad(now, settings);
    }

    /** The merge proper: register a new feed (adopting the stored feed's
        id on a URL conflict), push the entries and the placeholder, stamp
        the load times and `put` the feed. */
    method MergeFeed(feed: Feed, entries: seq<Entry>, now: int, maxKeptPeriod: int,
      placeholderUrl: string, fetched: string) returns (ok: bool, g: Feed, total: int, ghost added: seq<Id>)
      requires Valid()
      modifies timeline, registry, itemStore, feedStore
      ensures Valid()
      ensures ok ==>
        && FeedMerged(feed, now, total, g)
        && ItemsMerged(Fresh(feed, now).(id := g.id), entries, now, maxKeptPeriod, placeholderUrl, fetched,
             old(timeline.items), old(itemStore.records), total, added, timeline.items, itemStore.records)
        && g.id.value in feedStore.records && feedStore.records[g.id.value] == g
      ensures !ok ==>
        || PlaceholderFor(Fresh(feed, now), |Accepted(entries, RecUrls(old(itemStore.records)))|, now, maxKeptPeriod) != NoPlaceholder
        || feed.id.Some?
    {
      var f := ResolveFeed(feed, now);
      ok, g, total, added := MergeResolved(f, entries, now, maxKeptPeriod, placeholderUrl, fetched);
    }

    /** The merge for the registered feed `f`: push the entries and the
        placeholder, stamp the load times and `put` the feed, which
        cannot fail when the store holds `f`'s URL under its id. */
    method MergeResolved(f: Feed, entries: seq<Entry>, now: int, maxKeptPeriod: int,
      placeholderUrl: string, fetched: string) returns (ok: bool, g: Feed, total: int, ghost added: seq<Id>)
      requires Valid() && f.id.Some?
      modifies timeline, registry, itemStore, feedStore
      ensures Valid()
      ensures ok ==>
        && FeedMerged(f, now, total, g) && g.id == f.id
        && ItemsMerged(f, entries, now, maxKeptPeriod, placeholderUrl, fetched,
             old(timeline.items), old(itemStore.records), total, added, timeline.items, itemStore.records)
        && g.id.value in feedStore.records && feedStore.records[g.id.value] == g
      ensures !ok && f.id.value in old(feedStore.records) && old(feedStore.records)[f.id.value].feedUrl == f.feedUrl ==>
        PlaceholderFor(f, |Accepted(entries, RecUrls(old(itemStore.records)))|, now, maxKeptPeriod) != NoPlaceholder
    {
      var placed;
      placed, total, added := PushBatch(f, entries, now, maxKeptPeriod, placeholderUrl, fetched);
      g := f.(lastLoadTime := now,
              lastFetchTime := if total > 0 then Some(now) else f.lastFetchTime,
              error := if Truthy(f.error) then None else f.error);
      if placed {
        if f.id.value in feedStore.records && feedStore.records[f.id.value].feedUrl == f.feedUrl {
          FeedUrlOwnedBy(feedStore, f.id.value);
        }
        ok := StoreFeed(g);
      } else {
        ok := false;
      }
    }

    /** The pushes of a merge for the feed `f`: the entries from the last
        to the first, then the placeholder, which fails when its URL is
        taken. */
    method PushBatch(f: Feed, entries: seq<Entry>, now: int, maxKeptPeriod: int,
      placeholderUrl: string, fetched: string) returns (placed: bool, total: int, ghost added: seq<Id>)
      requires Valid() && f.id.Some?
      modifies timeline, registry, itemStore
      ensures Valid()
      ensures placed ==> ItemsMerged(f, entries, now, maxKeptPeriod, placeholderUrl, fetched,
        old(timeline.items), old(itemStore.records), total, added, timeline.items, itemStore.records)
      ensures !placed ==> PlaceholderFor(f, |Accepted(entries, RecUrls(old(itemStore.records)))|, now, maxKeptPeriod) != NoPlaceholder
    {
      var oldCount := |timeline.items|;
      ghost var items0, recs0 := timeline.items, itemStore.records;
      ghost var pushed := PushEntries(f.id.value, entries);
      ghost var items1, recs1 := timeline.items, itemStore.records;
      var num := |timeline.items| - oldCount;
      var p := PlaceholderFor(f, num, now, maxKeptPeriod);
      ghost var extra;
      placed, extra := PushPlaceholder(f, num, now, maxKeptPeriod, placeholderUrl, fetched);
      added := pushed + extra;
      total := num + (if p == NoPlaceholder then 0 else 1);
      if placed {
        ghost var acc := Accepted(entries, RecUrls(recs0));
        PushedFacts(entries, f.id.value, items0, recs0, acc, pushed, items1, recs1);
        BatchRecords(f.id.value, acc, recs0, pushed, recs1, PlaceholderItem(p, f, f.id.value, now, placeholderUrl, fetched),
          extra, itemStore.records);
        AppendAssoc(items0, pushed, extra);
      }
    }

    /** The new-feed branch of `cb_updateFeed`: a feed without an id gets
        both load times set to `now` and is added; on a URL conflict it
        takes the id of the stored feed with its URL. */
    method ResolveFeed(feed: Feed, now: int) returns (f: Feed)
      requires Valid()
      modifies registry, feedStore
      ensures Valid()
      ensures registry.itemSet == old(registry.itemSet)
      ensures f.id.Some? && f == Fresh(feed, now).(id := f.id)
      ensures feed.id.Some? ==>
        f == feed && registry.feeds == old(registry.feeds) && feedStore.records == old(feedStore.records)
      ensures feed.id.None? ==> f.id.value in feedStore.records && feedStore.records[f.id.value].feedUrl == feed.feedUrl
      ensures feed.id.None? && old(feedStore.HasUrl(feed.feedUrl)) ==>
        registry.feeds == old(registry.feeds) && feedStore.records == old(feedStore.records)
      ensures feed.id.None? && !old(feedStore.HasUrl(feed.feedUrl)) ==>
        && f.id.value !in old(feedStore.records)
        && feedStore.records == old(feedStore.records)[f.id.value := f]
        && registry.feeds == old(registry.feeds) + [f.id.value]
    {
      if feed.id.None? {
        f := AddNewFeed(feed, now);
      } else {
        f := feed;
      }
    }

    /** A feed without an id: stamped and added, or given the id of the
        stored feed with its URL. */
    method AddNewFeed(feed: Feed, now: int) returns (f: Feed)
      requires Valid() && feed.id.None?
      modifies registry, feedStore
      ensures Valid()
      ensures registry.itemSet == old(registry.itemSet)
      ensures f.id.Some? && f == Fresh(feed, now).(id := f.id)
      ensures f.id.value in feedStore.records && feedStore.records[f.id.value].feedUrl == feed.feedUrl
      ensures old(feedStore.HasUrl(feed.feedUrl)) ==>
        registry.feeds == old(registry.feeds) && feedStore.records == old(feedStore.records)
      ensures !old(feedStore.HasUrl(feed.feedUrl)) ==>
        && f.id.value !in old(feedStore.records)
        && feedStore.records == old(feedStore.records)[f.id.value := f]
        && registry.feeds == old(registry.feeds) + [f.id.value]
    {
      f := Fresh(feed, now);
      var id, added := registry.AddFeed(feedStore, f);
      if id.Some? {
        f := added;
      } else {
        FeedUrlStored(feedStore, f.feedUrl);
        var found := registry.GetFeed(feedStore, f.feedUrl);
        f := f.(id := found);
      }
    }

    /** The placeholder step of `cb_updateFeed` after `num` pushed
        entries: nothing, or one placeholder item, which fails when its URL
        is taken. */
    method PushPlaceholder(f: Feed, num: int, now: int, maxKeptPeriod: int, placeholderUrl: string, fetched: string)
      returns (ok: bool, ghost extra: seq<Id>)
      requires Valid() && f.id.Some?
      modifies timeline, itemStore, registry
      ensures Valid()
      ensures var p := PlaceholderFor(f, num, now, maxKeptPeriod);
        && (ok <==> p == NoPlaceholder || placeholderUrl !in RecUrls(old(itemStore.records)))
        && timeline.items == old(timeline.items) + extra
        && |extra| == (if ok && p != NoPlaceholder then 1 else 0)
        && (p == NoPlaceholder || !ok ==> itemStore.records == old(itemStore.records))
        && (ok && p != NoPlaceholder ==>
              && extra[0] !in old(itemStore.records)
              && itemStore.records == old(itemStore.records)[extra[0] :=
                   PlaceholderItem(p, f, f.id.value, now, placeholderUrl, fetched).value])
    {
      var p := PlaceholderFor(f, num, now, maxKeptPeriod);
      if p == NoPlaceholder {
        ok, extra := true, [];
      } else {
        var id := Push(PlaceholderItem(p, f, f.id.value, now, placeholderUrl, fetched).value);
        ok := id.Some?;
        extra := if ok then [id.value] else [];
      }
    }

    /** `Feeds.updateFeed` within the engine. */
    method StoreFeed(g: Feed) returns (ok: bool)
      requires Valid() && g.id.Some?
      modifies feedStore
      ensures Valid()
      ensures ok <==> forall j :: j in old(feedStore.records) && j != g.id.value ==> old(feedStore.records)[j].feedUrl != g.feedUrl
      ensures ok ==> feedStore.records == old(feedStore.records)[g.id.value := g]
      ensures !ok ==> feedStore.records == old(feedStore.records)
    {
      ok := registry.UpdateFeed(feedStore, g);
    }

    /** `Items.pushItem` within the engine. */
    method Push(item: Item) returns (id: Option<Id>)
      requires Valid() && !item.read
      modifies timeline, itemStore, registry
      ensures Valid()
      ensures registry.feeds == old(registry.feeds)
      ensures id.None? <==> item.url in RecUrls(old(itemStore.records))
      ensures id.None? ==>
        && timeline.items == old(timeline.items) && timeline.reading == old(timeline.reading)
        && itemStore.records == old(itemStore.records)
      ensures id.Some? ==>
        && id.value !in old(itemStore.records)
        && timeline.items == old(timeline.items) + [id.value]
        && itemStore.records == old(itemStore.records)[id.value := item]
        && timeline.reading == (if old(timeline.reading) < 0 then 0 else old(timeline.reading))
      ensures timeline.readCount == old(timeline.readCount)
    {
      HasUrlRecs(itemStore, item.url);
      id := timeline.PushItem(itemStore, registry, item);
    }

    /** The push loop of `cb_updateFeed`: the entries from the last to the
        first, each stamped with `feedId`; a URL conflict skips the entry.
        The timeline grows by the accepted entries, in the order stored. */
    method PushEntries(feedId: Id, entries: seq<Entry>) returns (ghost added: seq<Id>)
      requires Valid()
      modifies timeline, itemStore, registry
      ensures Valid()
      ensures registry.feeds == old(registry.feeds)
      ensures Pushed(entries, feedId, old(timeline.items), old(itemStore.records), 0,
        Accepted(entries, RecUrls(old(itemStore.records))), added, timeline.items, itemStore.records)
    {
      var i := |entries|;
      ghost var items0, recs0 := timeline.items, itemStore.records;
      ghost var acc: seq<Entry> := [];
      added := [];
      PushedStart(entries, feedId, items0, recs0);
      while i > 0
        invariant 0 <= i <= |entries|
        invariant Valid()
        invariant registry.feeds == old(registry.feeds)
        invariant Pushed(entries, feedId, items0, recs0, i, acc, added, timeline.items, itemStore.records)
      {
        acc, added := PushEntry(entries, feedId, items0, recs0, i, acc, added);
        i := i - 1;
      }
      PushedDone(entries, feedId, items0, recs0, acc, added, timeline.items, itemStore.records);
    }

    /** One turn of the push loop: the entry at `i - 1`. */
    method PushEntry(entries: seq<Entry>, feedId: Id, ghost items0: seq<Id>, ghost recs0: map<Id, Item>, i: int,
      ghost acc: seq<Entry>, ghost added: seq<Id>) returns (ghost acc': seq<Entry>, ghost added': seq<Id>)
      requires 0 < i <= |entries| && Valid()
      requires Pushed(entries, feedId, items0, recs0, i, acc, added, timeline.items, itemStore.records)
      modifies timeline, itemStore, registry
      ensures Valid()
      ensures registry.feeds == old(registry.feeds)
      ensures Pushed(entries, feedId, items0, recs0, i - 1, acc', added', timeline.items, itemStore.records)
    {
      ghost var items, recs := timeline.items, itemStore.records;
      var item := Stamp(entries[i - 1], feedId);
      var id := Push(item);
      acc', added' := PushedStep(entries, feedId, items0, recs0, i, acc, added,
        items, recs, item, id, timeline.items, itemStore.records);
    }

    /** `Items.allUrlsOfFeed` within the engine. */
    method StoredUrls(feedId: Id) returns (urls: seq<string>)
      requires Valid()
      ensures forall u :: u in urls <==> u in UrlsOf(registry.ItemsOf(feedId), itemStore.records)
      ensures Distinct(urls)
    {
      urls := timeline.AllUrlsOfFeed(itemStore, registry, feedId);
    }

    /** `Feeds.rotate` within the engine. */
    method RotateFeeds()
      requires Valid() && registry.feeds != []
      modifies registry
      ensures Valid()
      ensures registry.itemSet == old(registry.itemSet) && registry.feeds == Rotated(old(registry.feeds))
    {
      registry.Rotate();
    }

    /** `cb_init`: the rotation is loaded from the feed store (`order` is
        what the `lastLoadTime` index yields), the timeline is rebuilt from
        the item store under the retention settings, then `try_load`. */
    method Init(order: seq<Id>, now: int, settings: Settings) returns (gate: Gate)
      requires itemStore.Valid() && ItemIndex(itemStore)
      requires feedStore.Valid() && FeedIndex(feedStore) && LoadTimeOrder(feedStore.records, order)
      modifies this, timeline, registry, itemStore
      ensures Valid()
      ensures gate == Busy <==> old(loadingOutstanding)
      ensures Distinct(registry.feeds) && forall k :: k in registry.feeds <==> k in feedStore.records
      ensures timeline.items == Reverse(ScanFrom(old(itemStore.records), 1, old(itemStore.nextKey), now,
                ParsedOr(settings.maxKeptPeriod, 180), ParsedOr(settings.maxKeptItems, 100)).kept)
      ensures timeline.reading == LoadCursor(timeline.items, old(itemStore.records))
    {
      LoadAll(order, now, settings);
      ghost var feeds := registry.feeds;
      gate := TryLoad(now, settings);
      if gate.Started? {
        RotatedPermutation(feeds);
        RotatedDistinct(feeds);
        assert forall k :: k in registry.feeds <==> k in multiset(feeds);
      }
    }

    /** `Feeds.load` then `Items.load`. */
    method LoadAll(order: seq<Id>, now: int, settings: Settings)
      requires itemStore.Valid() && ItemIndex(itemStore)
      requires feedStore.Valid() && FeedIndex(feedStore) && LoadTimeOrder(feedStore.records, order)
      modifies timeline, registry, itemStore
      ensures Valid()
      ensures Distinct(registry.feeds) && forall k :: k in registry.feeds <==> k in feedStore.records
      ensures timeline.items == Reverse(ScanFrom(old(itemStore.records), 1, old(itemStore.nextKey), now,
                ParsedOr(settings.maxKeptPeriod, 180), ParsedOr(settings.maxKeptItems, 100)).kept)
      ensures timeline.reading == LoadCursor(timeline.items, old(itemStore.records))
    {
      registry.Load(feedStore, order);
      timeline.Load(itemStore, registry, now, settings.maxKeptPeriod, settings.maxKeptItems);
    }

    /** `cb_forwardItem`: mark the current item read and step forward, then
        `try_load` whether the cursor moved or not. */
    method ForwardItem(now: int, settings: Settings) returns (moved: bool, gate: Gate)
      requires Valid()
      modifies this, timeline, registry, itemStore
      ensures Valid()
      ensures timeline.items == old(timeline.items)
      ensures moved <==> old(timeline.reading) < |timeline.items| - 1
      ensures timeline.reading == if moved then old(timeline.reading) + 1 else old(timeline.reading)
      ensures timeline.items != [] ==>
        var x := timeline.items[old(timeline.reading)];
        && itemStore.records == old(itemStore.records)[x := old(itemStore.records)[x].(read := true)]
        && timeline.UnreadCount() == old(timeline.UnreadCount()) - (if old(itemStore.records)[x].read then 0 else 1)
      ensures gate == Busy <==> old(loadingOutstanding)
      ensures gate == Enough <==> !old(loadingOutstanding) && timeline.UnreadCount() > ParsedOr(settings.waterMark, 10)
    {
      moved := Advance();
      gate := Refill(now, settings);
    }

    /** The `try_load` after a step forward, which changes neither the
        timeline nor the item store. */
    method Refill(now: int, settings: Settings) returns (gate: Gate)
      requires Valid()
      modifies this, registry
      ensures Valid()
      ensures unchanged(timeline, itemStore)
      ensures gate == Busy <==> old(loadingOutstanding)
      ensures gate == Enough <==> !old(loadingOutstanding) && timeline.UnreadCount() > ParsedOr(settings.waterMark, 10)
    {
      gate := TryLoad(now, settings);
    }

    /** `Items.forward` within the engine. */
    method Advance() returns (moved: bool)
      requires Valid()
      modifies timeline, itemStore
      ensures Valid()
      ensures timeline.items == old(timeline.items)
      ensures moved <==> old(timeline.reading) < |timeline.items| - 1
      ensures timeline.reading == if moved then old(timeline.reading) + 1 else old(timeline.reading)
      ensures timeline.items != [] ==>
        var x := timeline.items[old(timeline.reading)];
        && itemStore.records == old(itemStore.records)[x := old(itemStore.records)[x].(read := true)]
        && timeline.UnreadCount() == old(timeline.UnreadCount()) - (if old(itemStore.records)[x].read then 0 else 1)
      ensures timeline.items == [] ==>
        itemStore.records == old(itemStore.records) && timeline.UnreadCount() == old(timeline.UnreadCount())
    {
      ghost var recs := itemStore.records;
      ghost var x := if timeline.reading >= 0 then timeline.items[timeline.reading] else 0;
      moved := timeline.Forward(itemStore);
      if timeline.items != [] {
        IndexedMark(registry.itemSet, recs, x);
      }
    }

    /** `cb_backwardItem`: mark the current item read and step back. */
    method BackwardItem() returns (moved: bool)
      requires Valid()
      modifies timeline, itemStore
      ensures Valid()
      ensures timeline.items == old(timeline.items)
      ensures moved <==> old(timeline.reading) > 0
      ensures timeline.reading == if moved then old(timeline.reading) - 1 else old(timeline.reading)
      ensures timeline.items != [] ==>
        var x := timeline.items[old(timeline.reading)];
        && itemStore.records == old(itemStore.records)[x := old(itemStore.records)[x].(read := true)]
        && timeline.UnreadCount() == old(timeline.UnreadCount()) - (if old(itemStore.records)[x].read then 0 else 1)
      ensures timeline.items == [] ==>
        itemStore.records == old(itemStore.records) && timeline.UnreadCount() == old(timeline.UnreadCount())
    {
      ghost var recs := itemStore.records;
      ghost var x := if timeline.reading >= 0 then timeline.items[timeline.reading] else 0;
      moved := timeline.Backward(itemStore);
      if timeline.items != [] {
        IndexedMark(registry.itemSet, recs, x);
      }
    }

    /** `cb_deleteItem`: the current item leaves the timeline, the store and
        its feed's set; on an empty timeline nothing happens. */
    method DeleteItem() returns (deleted: bool)
      requires Valid()
      modifies timeline, itemStore, registry
      ensures Valid()
      ensures deleted <==> old(timeline.items) != []
      ensures !deleted ==> timeline.items == old(timeline.items) && itemStore.records == old(itemStore.records)
      ensures deleted ==>
        var i := old(timeline.reading);
        var x := old(timeline.items)[i];
        && timeline.items == old(timeline.items)[..i] + old(timeline.items)[i + 1..]
        && itemStore.records == old(itemStore.records) - {x}
        && timeline.reading == (if i == |timeline.items| then i - 1 else i)
      ensures registry.feeds == old(registry.feeds)
    {
      deleted := timeline.DeleteCurrentItem(itemStore, registry);
    }

    /** `cb_unsubscribe`: every item of the feed leaves the timeline and the
        store (the corrected `deleteAllItemsOfFeed`, which keeps the cursor
        on an item), then the feed leaves the rotation, the item map and the
        feed store. Deleting an absent key does not fail in IndexedDB, so
        the "Feed not found" branch is never taken. */
    method Unsubscribe(feedId: Id)
      requires Valid()
      modifies timeline, registry, itemStore, feedStore
      ensures Valid()
      ensures var drop := old(registry.ItemsOf(feedId));
        && timeline.items == Removed(old(timeline.items), drop)
        && itemStore.records == old(itemStore.records) - drop
        && timeline.reading == ClampedCursor(old(timeline.items), old(timeline.reading), drop)
      ensures forall x :: x in itemStore.records ==> itemStore.records[x].feedId != feedId
      ensures registry.feeds == Removed(old(registry.feeds), {feedId})
      ensures registry.itemSet == old(registry.itemSet) - {feedId}
      ensures feedStore.records == old(feedStore.records) - {feedId}
    {
      timeline.DeleteAllItemsOfFeedClamped(itemStore, registry, feedId);
      IndexedAfterRemoval(registry.itemSet, itemStore.records, feedId);
      registry.RemoveFeed(feedStore, feedId);
    }

    /** `cb_addFeed`: a subscription whose URL (or preset id) is already
        stored is refused and only reported. */
    method AddFeed(feed: Feed) returns (id: Option<Id>)
      requires Valid()
      modifies registry, feedStore
      ensures Valid()
      ensures id.None? <==>
        old(feedStore.HasUrl(feed.feedUrl)) || (feed.id.Some? && feed.id.value in old(feedStore.records))
      ensures id.None? ==> feedStore.records == old(feedStore.records)
      ensures id.Some? ==>
        && id.value !in old(feedStore.records)
        && feedStore.records == old(feedStore.records)[id.value := feed.(id := id)]
      ensures registry.feeds == old(registry.feeds) +
        (if feed.id.Some? then [feed.id.value] else if id.Some? then [id.value] else [])
    {
      var added;
      id, added := registry.AddFeed(feedStore, feed);
    }
  }
}
