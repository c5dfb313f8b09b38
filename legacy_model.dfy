/** The older engine of src/airss_model.js, over the older timeline and
    registry. It has no in-flight flag: the controller asks for a load
    candidate, and the merge of a loaded feed pushes every parsed entry
    without checking its URL first, letting the store's unique index
    refuse the duplicates. Settings are the raw `localStorage` strings,
    used wherever the source uses them as numbers. */
module LegacyModel {
  import opened Wrappers
  import opened Records
  import opened Seqs
  import opened ObjectStore
  import opened Feeds
  import opened ItemSpecs
  import opened Items
  import opened AirssModel
  import opened LegacyItems
  import opened LegacyFeeds

  /** A setting read as `localStorage.getItem(key) || fallback`: unset, or
      the stored text with the number JavaScript reads from it (`None` for
      `NaN`). The empty text is falsy and gives the fallback. */
  datatype Stored = Unset | Text(text: string, number: Option<int>)

  /** The setting as a number: the fallback, or the stored text's number. */
  function StoredOr(s: Stored, fallback: int): (v: Option<int>)
    ensures s.Unset? || s.text == "" ==> v == Some(fallback)
    ensures s.Text? && s.text != "" ==> v == s.number
  {
    if s.Text? && s.text != "" then s.number else Some(fallback)
  }

  /** The setting as text, as string concatenation reads it. */
  function StoredText(s: Stored, fallback: string): (t: string)
    ensures s.Unset? || s.text == "" ==> t == fallback
    ensures s.Text? && s.text != "" ==> t == s.text
  {
    if s.Text? && s.text != "" then s.text else fallback
  }

  datatype LegacySettings = LegacySettings(waterMark: Stored, minReloadWait: Stored, maxKeptPeriod: Stored)

  /** `unreadCount() >= WaterMark`, false against `NaN`. */
  predicate AtWaterMark(unread: int, settings: LegacySettings) {
    var wm := StoredOr(settings.waterMark, 10);
    wm.Some? && unread >= wm.value
  }

  /** `feed.lastLoadTime > now - MinReloadWait * 3600 * 1000`, false
      against `NaN`. */
  predicate LoadedRecently(feed: Feed, now: int, settings: LegacySettings) {
    var wait := StoredOr(settings.minReloadWait, 12);
    wait.Some? && feed.lastLoadTime > now - wait.value * HourMs
  }

  /** The placeholder decision of the older merge: an error always gets
      one; otherwise a merge that added nothing to a feed last fetched more
      than `period` days ago gets one. It is the current merge's decision
      whenever the period is a number; a `NaN` period never asks for the
      quiet placeholder. */
  function LegacyPlaceholderFor(feed: Feed, num: int, now: int, period: Option<int>): (p: Placeholder)
    ensures period.Some? ==> p == PlaceholderFor(feed, num, now, period.value)
    ensures period.None? ==> (p == Oops <==> Truthy(feed.error)) && p != Quiet
  {
    if Truthy(feed.error) then Oops
    else if num == 0 && feed.lastFetchTime.Some? && period.Some? && feed.lastFetchTime.value < now - period.value * DayMs then Quiet
    else NoPlaceholder
  }

  /** `oopsItem` of the older engine. */
  function LegacyOopsItem(feed: Feed, feedId: Id, now: int, url: string): (item: Item)
    ensures IsDummyItem(item) && item.feedId == feedId && item.datePublished == Some(now) && !item.read
    ensures item.url == url && item.title == Some("Oops...") && item.feedTitle == feed.title
  {
    Item(feedId, feed.title, url, Some("Oops..."),
      "If you see this, this feed '" + feed.feedUrl + "' failed loading:Check the console for the detail error.",
      None, ["_error"], Some(now), false)
  }

  /** `dummyItem` of the older engine; `periodText` is the kept period as
      the setting's text. */
  function LegacyQuietItem(feed: Feed, feedId: Id, now: int, url: string, periodText: string): (item: Item)
    ensures IsDummyItem(item) && item.feedId == feedId && item.datePublished == Some(now) && !item.read
    ensures item.url == url && item.title == Some("Errrr...") && item.feedTitle == feed.title
  {
    Item(feedId, feed.title, url, Some("Errrr..."),
      "If you see this, this feed '" + feed.feedUrl + "' hasn't been updated for " + periodText +
      " days. There is nothing wrong, just too quiet.",
      None, ["_error"], Some(now), false)
  }

  /** The placeholder record of kind `p`, if there is one. */
  function PlaceholderRecord(p: Placeholder, feed: Feed, feedId: Id, now: int, url: string, periodText: string): (r: Option<Item>)
    ensures r.None? <==> p == NoPlaceholder
    ensures r.Some? ==> IsDummyItem(r.value) && r.value.url == url && r.value.feedId == feedId
  {
    if p == NoPlaceholder then None
    else if p == Oops then Some(LegacyOopsItem(feed, feedId, now, url))
    else Some(LegacyQuietItem(feed, feedId, now, url, periodText))
  }

  /** The feed as the older merge hands it to `updateFeed`. */
  function MergedFeed(feed: Feed, now: int, num: int): (g: Feed)
    ensures g.id == feed.id && g.feedUrl == feed.feedUrl && g.lastLoadTime == now
    ensures g.lastFetchTime == if num > 0 then Some(now) else feed.lastFetchTime
    ensures !Truthy(g.error)
    ensures g.(error := feed.error) == feed.(lastLoadTime := now, lastFetchTime := g.lastFetchTime)
  {
    feed.(lastLoadTime := now, lastFetchTime := if num > 0 then Some(now) else feed.lastFetchTime,
          error := if Truthy(feed.error) then None else feed.error)
  }

  /** `n` undefined timeline entries: what the older `pushItem` appends for
      records whose key the store generated. */
  function Nones(n: nat): (s: seq<Option<Id>>)
    ensures |s| == n && forall i :: 0 <= i < n ==> s[i] == None
  {
    if n == 0 then [] else Nones(n - 1) + [None]
  }

  /** Undefined entries appended in two goes. */
  lemma NonesAppend(s: seq<Option<Id>>, m: nat, n: nat)
    ensures (s + Nones(m)) + Nones(n) == s + Nones(m + n)
  {
    var a, b := (s + Nones(m)) + Nones(n), s + Nones(m + n);
    assert |a| == |b|;
    forall i | 0 <= i < |a| ensures a[i] == b[i] {
      if i < |s| {
        assert a[i] == s[i] == b[i];
      }
    }
  }

  /** What the pushes of an older merge for the feed `feedId` did to the
      records `recs0`: `num` new records, the stamped accepted entries and
      then the placeholder if there is one. */
  ghost predicate LegacyItemsMerged(feed: Feed, feedId: Id, entries: seq<Entry>, now: int, period: Option<int>,
    periodText: string, url: string, recs0: map<Id, Item>, num: int, keys: seq<Id>, recs: map<Id, Item>)
  {
    var acc := Accepted(entries, RecUrls(recs0));
    var p := LegacyPlaceholderFor(feed, |acc|, now, period);
    && num == |acc| + (if p == NoPlaceholder then 0 else 1)
    && MergedRecords(acc, feedId, PlaceholderRecord(p, feed, feedId, now, url, periodText), recs0, keys, recs)
  }

  /** What `cb_getLoadCandidate` gives: `null`, or a `TypeError` (reading
      the load time of a missing record, or calling `Feeds.rotate`, which
      src/feeds.js does not export). It never gets to return a candidate. */
  datatype CandidateReply = Null | TypeError

  /** What the cursor entry points give: a warning and `null`, or the
      promise of the current item. */
  datatype Reply = Warned(text: string) | Shown(current: Lookup)

  /** How `cb_updateFeed` ended: a new feed refused for its URL, a throw
      from the placeholder push (its URL was taken), or done with `num` new
      timeline entries for the feed `feedId`. */
  datatype LegacyMerge = Refused | PlaceholderThrew | Done(feedId: Id, num: int)

  /** How an entry point that relies on an undefined function of
      src/items.js ends: it finishes, having signalled that items were
      loaded or not, or the call throws a `TypeError`, which its `catch`
      (looking for a `DOMException`) does not absorb. */
  datatype Outcome = Finished(loadedEvent: bool) | ThrewTypeError

  class LegacyEngine {
    const timeline: LegacyTimeline
    const registry: LegacyRegistry
    const itemStore: Store<Item>
    const feedStore: Store<Feed>

    constructor(timeline: LegacyTimeline, registry: LegacyRegistry, itemStore: Store<Item>, feedStore: Store<Feed>)
      ensures this.timeline == timeline && this.registry == registry
      ensures this.itemStore == itemStore && this.feedStore == feedStore
    {
      this.timeline := timeline;
      this.registry := registry;
      this.itemStore := itemStore;
      this.feedStore := feedStore;
    }

    /** Both stores keep their indexes and the cursors are in order. */
    ghost predicate Valid()
      reads timeline, itemStore, feedStore
    {
      && timeline.Valid()
      && itemStore.Valid() && ItemIndex(itemStore)
      && feedStore.Valid() && FeedIndex(feedStore)
    }

    /** cb_getLoadCandidate: `null` at the watermark, and otherwise the head
        of the queue is popped for good: `null` on an empty queue or a head
        loaded too recently, a `TypeError` on a missing record and on every
        head that passes, when `Feeds.rotate` is called. */
    method GetLoadCandidate(now: int, settings: LegacySettings) returns (r: CandidateReply)
      modifies registry
      ensures AtWaterMark(timeline.UnreadCount(), settings) ==> r == Null && registry.feeds == old(registry.feeds)
      ensures !AtWaterMark(timeline.UnreadCount(), settings) ==>
        && old(registry.feeds) == (if old(registry.feeds) == [] then [] else [old(registry.feeds)[0]]) + registry.feeds
        && (r == TypeError <==>
              && old(registry.feeds) != []
              && (old(registry.feeds)[0] in feedStore.records ==>
                    !LoadedRecently(feedStore.records[old(registry.feeds)[0]], now, settings)))
    {
      if AtWaterMark(timeline.UnreadCount(), settings) {
        r := Null;
      } else {
        var head := registry.First();
        if head.None? {
          r := Null;
        } else {
          var feed := registry.Get(feedStore, head.value);
          if feed.None? {
            r := TypeError;
          } else if LoadedRecently(feed.value, now, settings) {
            r := Null;
          } else {
            r := TypeError;
          }
        }
      }
    }

    /** cb_forwardItem: a warning at the end, otherwise the item the cursor
        moved to. */
    method ForwardItem() returns (r: Reply)
      modifies timeline
      ensures timeline.items == old(timeline.items)
      ensures r.Warned? <==> old(timeline.reading) >= |timeline.items| - 1
      ensures r.Warned? ==>
        r.text == "Already at the end" && timeline.reading == old(timeline.reading) && timeline.known == old(timeline.known)
      ensures r.Shown? ==>
        timeline.reading == old(timeline.reading) + 1 && timeline.reading <= timeline.known && r.current == timeline.CurrentItem(itemStore)
      ensures old(timeline.Valid()) ==> timeline.Valid()
    {
      var moved := timeline.ForwardCursor();
      if moved {
        r := Shown(timeline.CurrentItem(itemStore));
      } else {
        r := Warned("Already at the end");
      }
    }

    /** cb_backwardItem as written: `backwardCursor` returns `undefined`
        after a step back, so every call warns and gives `null`, also when
        the cursor moved. */
    method BackwardItem() returns (r: Reply)
      modifies timeline
      ensures r == Warned("Already at the beginning")
      ensures timeline.items == old(timeline.items) && timeline.known == old(timeline.known)
      ensures timeline.reading == if old(timeline.reading) > 0 then old(timeline.reading) - 1 else old(timeline.reading)
      ensures old(timeline.Valid()) ==> timeline.Valid()
    {
      var res := timeline.BackwardCursor();
      // `!res` holds for both `false` and `undefined`.
      assert res == None || res == Some(false);
      r := Warned("Already at the beginning");
    }

    /** cb_backwardItem over the corrected `backwardCursor`: a warning at
        the first item, otherwise the item the cursor moved back to. */
    method BackwardItemFixed() returns (r: Reply)
      modifies timeline
      ensures timeline.items == old(timeline.items) && timeline.known == old(timeline.known)
      ensures r.Warned? <==> old(timeline.reading) <= 0
      ensures r.Warned? ==> r.text == "Already at the beginning" && timeline.reading == old(timeline.reading)
      ensures r.Shown? ==> timeline.reading == old(timeline.reading) - 1 && r.current == timeline.CurrentItem(itemStore)
      ensures old(timeline.Valid()) ==> timeline.Valid()
    {
      var moved := timeline.BackwardCursorFixed();
      if moved {
        r := Shown(timeline.CurrentItem(itemStore));
      } else {
        r := Warned("Already at the beginning");
      }
    }

    /** cb_addItems: the loop counts the items `Items.addItem` stores and
        signals that items were loaded only when it counted one. src/items.js
        defines no `addItem`, so the first item's call throws before any
        store write: only an empty batch finishes, and it signals nothing. */
    method AddItems(items: seq<Item>) returns (r: Outcome)
      ensures r == ThrewTypeError <==> items != []
      ensures r.Finished? ==> !r.loadedEvent
    {
      var cnt := 0;
      if items != [] {
        // The call of the undefined `Items.addItem` on `items[0]`.
        return ThrewTypeError;
      }
      r := Finished(cnt > 0);
    }

    /** cb_deleteItem: src/items.js defines no `deleteCurrentItem`, so its
        call throws before anything changes, and the step forward and the
        items-loaded signal after it are never reached. */
    method DeleteItem() returns (r: Outcome)
      ensures r == ThrewTypeError
    {
      r := ThrewTypeError;
    }

    /** cb_updateFeed. A new feed is added first (a URL conflict ends the
        merge); the entries are pushed from the last to the first, each
        stamped with the feed's id, the store refusing URLs it holds; then
        the placeholder, whose conflict is not caught; then the feed is
        written back with its load times. The write-back of a new feed
        always fails: the caller's feed has no id, and its URL is taken by
        the record the merge added. */
    method UpdateFeed(feed: Feed, entries: seq<Entry>, now: int, settings: LegacySettings, placeholderUrl: string)
      returns (r: LegacyMerge, ghost keys: seq<Id>)
      requires Valid()
      modifies timeline, itemStore, registry, feedStore
      ensures Valid()
      ensures r.Refused? <==> feed.id.None? && old(feedStore.HasUrl(feed.feedUrl))
      ensures r.Refused? ==>
        && timeline.items == old(timeline.items) && itemStore.records == old(itemStore.records)
        && registry.feeds == old(registry.feeds) && feedStore.records == old(feedStore.records)
      ensures timeline.reading == old(timeline.reading) && timeline.known == old(timeline.known)
      ensures r.PlaceholderThrew? ==>
        LegacyPlaceholderFor(feed, |Accepted(entries, RecUrls(old(itemStore.records)))|, now,
          StoredOr(settings.maxKeptPeriod, 180)) != NoPlaceholder
      ensures r.Done? ==>
        && 0 <= r.num
        && timeline.items == old(timeline.items) + Nones(r.num)
        && LegacyItemsMerged(feed, r.feedId, entries, now, StoredOr(settings.maxKeptPeriod, 180),
             StoredText(settings.maxKeptPeriod, "180"), placeholderUrl, old(itemStore.records), r.num, keys,
             itemStore.records)
      ensures r.Done? && feed.id.Some? ==> r.feedId == feed.id.value
      ensures !r.Refused? && feed.id.Some? ==> registry.feeds == old(registry.feeds)
      ensures !r.Refused? && feed.id.None? ==>
        && old(feedStore.nextKey) !in old(feedStore.records)
        && registry.feeds == [old(feedStore.nextKey)] + old(registry.feeds)
        && feedStore.records == old(feedStore.records)[old(feedStore.nextKey) := feed.(id := Some(old(feedStore.nextKey)))]
        && (r.Done? ==> r.feedId == old(feedStore.nextKey))
      ensures r.PlaceholderThrew? && feed.id.Some? ==> feedStore.records == old(feedStore.records)
      ensures r.Done? && feed.id.Some? ==>
        var g := MergedFeed(feed, now, r.num);
        feedStore.records == if forall j :: j in old(feedStore.records) && j != g.id.value ==> old(feedStore.records)[j].feedUrl != g.feedUrl
          then old(feedStore.records)[g.id.value := g] else old(feedStore.records)
    {
      var id := ResolveId(feed);
      if id.None? {
        r, keys := Refused, [];
      } else {
        r, keys := Merge(feed, id.value, entries, now, settings, placeholderUrl);
      }
    }

    /** cb_updateFeed once the feed has the id `feedId`: the pushes, then
        the write-back, which for a new feed finds its URL taken. */
    method Merge(feed: Feed, feedId: Id, entries: seq<Entry>, now: int, settings: LegacySettings, placeholderUrl: string)
      returns (r: LegacyMerge, ghost keys: seq<Id>)
      requires Valid()
      requires feed.id.Some? ==> feed.id.value == feedId
      requires feed.id.None? ==> feedId in feedStore.records && feedStore.records[feedId].feedUrl == feed.feedUrl
      modifies timeline, itemStore, feedStore
      ensures Valid() && !r.Refused?
      ensures timeline.reading == old(timeline.reading) && timeline.known == old(timeline.known)
      ensures r.PlaceholderThrew? ==>
        LegacyPlaceholderFor(feed, |Accepted(entries, RecUrls(old(itemStore.records)))|, now,
          StoredOr(settings.maxKeptPeriod, 180)) != NoPlaceholder
      ensures r.Done? ==>
        && r.feedId == feedId && 0 <= r.num
        && timeline.items == old(timeline.items) + Nones(r.num)
        && LegacyItemsMerged(feed, feedId, entries, now, StoredOr(settings.maxKeptPeriod, 180),
             StoredText(settings.maxKeptPeriod, "180"), placeholderUrl, old(itemStore.records), r.num, keys,
             itemStore.records)
      ensures r.PlaceholderThrew? || feed.id.None? ==> feedStore.records == old(feedStore.records)
      ensures r.Done? && feed.id.Some? ==>
        var g := MergedFeed(feed, now, r.num);
        feedStore.records == if forall j :: j in old(feedStore.records) && j != g.id.value ==> old(feedStore.records)[j].feedUrl != g.feedUrl
          then old(feedStore.records)[g.id.value := g] else old(feedStore.records)
    {
      var placed, num;
      placed, num, keys := MergeItems(feed, feedId, entries, now, settings, placeholderUrl);
      if placed {
        if feed.id.None? {
          NewFeedPutFails(feedStore, MergedFeed(feed, now, num), feedId);
        }
        WriteBack(MergedFeed(feed, now, num));
        r := Done(feedId, num);
      } else {
        r := PlaceholderThrew;
      }
    }

    /** The pushes of cb_updateFeed for the feed `feedId`: the entries,
        then the placeholder; `placed` is false when the placeholder's URL
        was taken. */
    method MergeItems(feed: Feed, feedId: Id, entries: seq<Entry>, now: int, settings: LegacySettings,
      placeholderUrl: string) returns (placed: bool, num: int, ghost keys: seq<Id>)
      requires Valid()
      modifies timeline, itemStore
      ensures Valid()
      ensures timeline.reading == old(timeline.reading) && timeline.known == old(timeline.known)
      ensures !placed ==>
        LegacyPlaceholderFor(feed, |Accepted(entries, RecUrls(old(itemStore.records)))|, now,
          StoredOr(settings.maxKeptPeriod, 180)) != NoPlaceholder
      ensures placed ==>
        && 0 <= num
        && timeline.items == old(timeline.items) + Nones(num)
        && LegacyItemsMerged(feed, feedId, entries, now, StoredOr(settings.maxKeptPeriod, 180),
             StoredText(settings.maxKeptPeriod, "180"), placeholderUrl, old(itemStore.records), num, keys,
             itemStore.records)
    {
      ghost var recs0 := itemStore.records;
      ghost var items0 := timeline.items;
      var oldCount := |timeline.items|;
      var period := StoredOr(settings.maxKeptPeriod, 180);
      var periodText := StoredText(settings.maxKeptPeriod, "180");
      ghost var pushed := PushEntries(feedId, entries);
      ghost var recs1, items1 := itemStore.records, timeline.items;
      ghost var acc := Accepted(entries, RecUrls(recs0));
      PushedFacts(entries, feedId, [], recs0, acc, pushed, pushed, recs1);
      num := |timeline.items| - oldCount;
      assert num == |pushed| == |acc|;
      var p := LegacyPlaceholderFor(feed, num, now, period);
      ghost var extra;
      placed, extra := PushPlaceholder(feed, feedId, num, now, period, periodText, placeholderUrl);
      num := num + (if p == NoPlaceholder then 0 else 1);
      keys := pushed + extra;
      if placed {
        ghost var pr := PlaceholderRecord(p, feed, feedId, now, placeholderUrl, periodText);
        BatchRecords(feedId, acc, recs0, pushed, recs1, pr, extra, itemStore.records);
        assert num == |pushed| + |extra|;
        assert timeline.items == items1 + Nones(|extra|);
        NonesAppend(items0, |pushed|, |extra|);
      }
    }

    /** The feed's own id, or the id of the feed newly added for it; `None`
        when a new feed's URL is taken. */
    method ResolveId(feed: Feed) returns (id: Option<Id>)
      requires Valid()
      modifies registry, feedStore
      ensures Valid()
      ensures id.None? <==> feed.id.None? && old(feedStore.HasUrl(feed.feedUrl))
      ensures id.None? || feed.id.Some? ==> feedStore.records == old(feedStore.records) && registry.feeds == old(registry.feeds)
      ensures feed.id.Some? ==> id == feed.id
      ensures feed.id.None? && id.Some? ==>
        && id.value == old(feedStore.nextKey) && id.value !in old(feedStore.records)
        && feedStore.records == old(feedStore.records)[id.value := feed.(id := id)]
        && registry.feeds == [id.value] + old(registry.feeds)
    {
      if feed.id.Some? {
        id := feed.id;
      } else {
        id := registry.AddFeed(feedStore, feed);
      }
    }

    /** The closing `Feeds.updateFeed`, whose outcome the source never
        sees. */
    method WriteBack(g: Feed)
      requires Valid()
      modifies feedStore
      ensures Valid()
      ensures g.id.None? && old(feedStore.HasUrl(g.feedUrl)) ==> feedStore.records == old(feedStore.records)
      ensures g.id.Some? ==>
        feedStore.records == if forall j :: j in old(feedStore.records) && j != g.id.value ==> old(feedStore.records)[j].feedUrl != g.feedUrl
          then old(feedStore.records)[g.id.value := g] else old(feedStore.records)
    {
      var ok := registry.UpdateFeed(feedStore, g);
    }

    /** The placeholder step after `num` pushed entries: nothing, or one
        placeholder pushed without catching its URL conflict. */
    method PushPlaceholder(feed: Feed, feedId: Id, num: int, now: int, period: Option<int>, periodText: string,
      url: string) returns (ok: bool, ghost extra: seq<Id>)
      requires Valid()
      modifies timeline, itemStore
      ensures Valid()
      ensures timeline.reading == old(timeline.reading) && timeline.known == old(timeline.known)
      ensures var p := LegacyPlaceholderFor(feed, num, now, period);
        && (ok <==> p == NoPlaceholder || url !in RecUrls(old(itemStore.records)))
        && |extra| == (if ok && p != NoPlaceholder then 1 else 0)
        && timeline.items == old(timeline.items) + Nones(|extra|)
        && (p == NoPlaceholder || !ok ==> itemStore.records == old(itemStore.records))
        && (ok && p != NoPlaceholder ==>
              && extra[0] !in old(itemStore.records)
              && itemStore.records == old(itemStore.records)[extra[0] :=
                   PlaceholderRecord(p, feed, feedId, now, url, periodText).value])
    {
      var p := LegacyPlaceholderFor(feed, num, now, period);
      if p == NoPlaceholder {
        ok, extra := true, [];
        assert timeline.items == old(timeline.items) + Nones(0);
      } else {
        ghost var k;
        ok, k := PushNew(PlaceholderRecord(p, feed, feedId, now, url, periodText).value);
        extra := if ok then [k] else [];
        assert Nones(|extra|) == if ok then [None] else [];
      }
    }

    /** The push loop of the older merge: every entry from the last to the
        first, stamped with `feedId`; the store refuses a URL it holds. The
        timeline grows by one undefined entry per record stored. */
    method PushEntries(feedId: Id, entries: seq<Entry>) returns (ghost keys: seq<Id>)
      requires Valid()
      modifies timeline, itemStore
      ensures Valid()
      ensures timeline.reading == old(timeline.reading) && timeline.known == old(timeline.known)
      ensures timeline.items == old(timeline.items) + Nones(|keys|)
      ensures Pushed(entries, feedId, [], old(itemStore.records), 0,
        Accepted(entries, RecUrls(old(itemStore.records))), keys, keys, itemStore.records)
    {
      var i := |entries|;
      ghost var items0, recs0 := timeline.items, itemStore.records;
      ghost var acc: seq<Entry> := [];
      keys := [];
      PushedStart(entries, feedId, [], recs0);
      while i > 0
        invariant 0 <= i <= |entries|
        invariant Valid()
        invariant timeline.reading == old(timeline.reading) && timeline.known == old(timeline.known)
        invariant timeline.items == items0 + Nones(|keys|)
        invariant Pushed(entries, feedId, [], recs0, i, acc, keys, keys, itemStore.records)
      {
        acc, keys := PushEntry(entries, feedId, recs0, i, acc, keys);
        i := i - 1;
      }
      PushedDone(entries, feedId, [], recs0, acc, keys, keys, itemStore.records);
    }

    /** One turn of the push loop: the entry at `i - 1`. */
    method PushEntry(entries: seq<Entry>, feedId: Id, ghost recs0: map<Id, Item>, i: int,
      ghost acc: seq<Entry>, ghost keys: seq<Id>) returns (ghost acc': seq<Entry>, ghost keys': seq<Id>)
      requires 0 < i <= |entries| && Valid()
      requires Pushed(entries, feedId, [], recs0, i, acc, keys, keys, itemStore.records)
      modifies timeline, itemStore
      ensures Valid()
      ensures timeline.reading == old(timeline.reading) && timeline.known == old(timeline.known)
      ensures |keys| <= |keys'|
      ensures timeline.items == old(timeline.items) + Nones(|keys'| - |keys|)
      ensures Pushed(entries, feedId, [], recs0, i - 1, acc', keys', keys', itemStore.records)
    {
      ghost var recs := itemStore.records;
      var item := Stamp(entries[i - 1], feedId);
      var ok;
      ghost var k;
      ok, k := PushNew(item);
      ghost var id := if ok then Some(k) else None;
      acc', keys' := PushedStep(entries, feedId, [], recs0, i, acc, keys, keys, recs, item, id,
        keys + (if ok then [k] else []), itemStore.records);
      assert Nones(|keys'| - |keys|) == if ok then [None] else [];
    }

    /** The older `pushItem` of a record without an id: stored under the
        generated key `k` unless its URL is taken, with an undefined
        timeline entry for it. */
    method PushNew(item: Item) returns (ok: bool, ghost k: Id)
      requires Valid()
      modifies timeline, itemStore
      ensures Valid()
      ensures timeline.reading == old(timeline.reading) && timeline.known == old(timeline.known)
      ensures ok <==> item.url !in RecUrls(old(itemStore.records))
      ensures ok ==>
        && k !in old(itemStore.records) && itemStore.records == old(itemStore.records)[k := item]
        && timeline.items == old(timeline.items) + [None]
      ensures !ok ==> itemStore.records == old(itemStore.records) && timeline.items == old(timeline.items)
    {
      HasUrlRecs(itemStore, item.url);
      k := itemStore.nextKey;
      ok := timeline.PushItem(itemStore, item, None);
    }
  }
}
