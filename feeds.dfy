/** The feed registry of public/feeds.js: the rotation queue `feeds` of feed
    ids, oldest load first, and the in-memory map `itemSet` from a feed id
    to the set of its item ids. Feed records live in an object store keyed
    by `id` with a unique index on `feedUrl`. */
module Feeds {
  import opened Wrappers
  import opened Records
  import opened Seqs
  import opened ObjectStore

  /** The feed store's unique index is on `feedUrl`. */
  ghost predicate FeedIndex(db: Store<Feed>)
    reads db
  {
    forall k :: k in db.records ==> k in db.urls && db.urls[k] == db.records[k].feedUrl
  }

  /** The order the `lastLoadTime` index cursor visits the feed store in:
      every key once, by load time, ties by key. */
  ghost predicate LoadTimeOrder(records: map<Id, Feed>, order: seq<Id>) {
    && Distinct(order)
    && (forall k :: k in order <==> k in records)
    && (forall i, j :: 0 <= i < j < |order| ==>
          records[order[i]].lastLoadTime < records[order[j]].lastLoadTime
          || (records[order[i]].lastLoadTime == records[order[j]].lastLoadTime && order[i] < order[j]))
  }

  class Registry {
    /** Feed ids in rotation order; the head is the next load candidate. */
    var feeds: seq<Id>
    /** The item ids of each feed that has any. */
    var itemSet: map<Id, set<Id>>

    constructor()
      ensures feeds == [] && itemSet == map[]
    {
      feeds := [];
      itemSet := map[];
    }

    /** load: every stored feed once, oldest `lastLoadTime` first, and an
        empty item map. `order` is what the index cursor yields. */
    method Load(db: Store<Feed>, order: seq<Id>)
      requires LoadTimeOrder(db.records, order)
      modifies this
      ensures itemSet == map[]
      ensures Distinct(feeds)
      ensures forall k :: k in feeds <==> k in db.records
      ensures forall i, j :: 0 <= i < j < |feeds| ==>
        db.records[feeds[i]].lastLoadTime <= db.records[feeds[j]].lastLoadTime
    {
      feeds := [];
      itemSet := map[];
      var i := 0;
      while i < |order|
        invariant 0 <= i <= |order|
        invariant feeds == order[..i] && itemSet == map[]
      {
        feeds := feeds + [order[i]];
        i := i + 1;
      }
      assert feeds == order;
    }

    /** first: the head of the rotation, or none on an empty one. */
    function First(): (r: Option<Id>)
      reads this
      ensures r.None? <==> feeds == []
      ensures r.Some? ==> r.value == feeds[0] && r.value in feeds
    {
      if |feeds| == 0 then None else Some(feeds[0])
    }

    /** rotate: the head moves to the tail. */
    method Rotate()
      requires |feeds| > 0
      modifies this
      ensures feeds == Rotated(old(feeds))
      ensures multiset(feeds) == multiset(old(feeds))
      ensures itemSet == old(itemSet)
    {
      RotatedPermutation(feeds);
      feeds := feeds[1..] + [feeds[0]];
    }

    /** allFeedUrls: one URL per rotation entry, in rotation order. A
        rotation id with no stored record makes the source read `feedUrl`
        of `undefined` and throw a `TypeError`, here `None`. */
    method AllFeedUrls(db: Store<Feed>) returns (urls: Option<seq<string>>)
      ensures urls.None? <==> exists id :: id in feeds && id !in db.records
      ensures urls.Some? ==> |urls.value| == |feeds|
      ensures urls.Some? ==> forall i :: 0 <= i < |feeds| ==> urls.value[i] == db.records[feeds[i]].feedUrl
    {
      var acc := [];
      var i := 0;
      while i < |feeds|
        invariant 0 <= i <= |feeds|
        invariant |acc| == i
        invariant forall j :: 0 <= j < i ==> feeds[j] in db.records && acc[j] == db.records[feeds[j]].feedUrl
      {
        if feeds[i] !in db.records {
          return None;
        }
        acc := acc + [db.records[feeds[i]].feedUrl];
        i := i + 1;
      }
      urls := Some(acc);
    }

    /** get: the stored feed, with a falsy `lastFetchTime` (missing, or the
        0 a fresh subscription stores) patched to `lastLoadTime`; nothing
        else differs from the stored record. */
    function Get(db: Store<Feed>, id: Id): (f: Feed)
      reads db
      requires id in db.records
      ensures f.(lastFetchTime := db.records[id].lastFetchTime) == db.records[id]
      ensures TimeTruthy(db.records[id].lastFetchTime) ==> f == db.records[id]
      ensures !TimeTruthy(db.records[id].lastFetchTime) ==> f.lastFetchTime == Some(db.records[id].lastLoadTime)
    {
      var stored := db.records[id];
      if !TimeTruthy(stored.lastFetchTime) then stored.(lastFetchTime := Some(stored.lastLoadTime)) else stored
    }

    /** getFeed: the id of the feed stored under `url`, if any. */
    method GetFeed(db: Store<Feed>, url: string) returns (id: Option<Id>)
      requires db.Valid() && FeedIndex(db)
      ensures id.Some? ==> id.value in db.records && db.records[id.value].feedUrl == url
      ensures id.None? <==> forall k :: k in db.records ==> db.records[k].feedUrl != url
    {
      id := db.FindByUrl(url);
    }

    /** addFeed. With a preset id the id joins the rotation before the store
        is asked, so it stays there when the store refuses the feed;
        without one, the generated id joins only after a successful add.
        The store writes a generated key into the record's `id` (the key
        path), which `added` is. */
    method AddFeed(db: Store<Feed>, feed: Feed) returns (id: Option<Id>, added: Feed)
      requires db.Valid() && FeedIndex(db)
      modifies this, db
      ensures db.Valid() && FeedIndex(db) && itemSet == old(itemSet)
      ensures id.None? <==> old(db.HasUrl(feed.feedUrl)) || (feed.id.Some? && feed.id.value in old(db.records))
      ensures id.None? ==> db.records == old(db.records) && added == feed
      ensures id.Some? ==>
        && id.value !in old(db.records)
        && added == feed.(id := id)
        && db.records == old(db.records)[id.value := added]
        && (feed.id.Some? ==> id == feed.id)
      ensures feed.id.Some? ==> feeds == old(feeds) + [feed.id.value]
      ensures feed.id.None? ==> feeds == old(feeds) + (if id.Some? then [id.value] else [])
    {
      if feed.id.Some? {
        feeds := feeds + [feed.id.value];
        id := db.Add(feed, feed.feedUrl, feed.id);
        added := feed;
      } else {
        var keyed := feed.(id := Some(db.nextKey));
        id := db.Add(keyed, feed.feedUrl, None);
        if id.Some? {
          feeds := feeds + [id.value];
          added := keyed;
        } else {
          added := feed;
        }
      }
    }

    /** updateFeed: `put` under the feed's own id. */
    method UpdateFeed(db: Store<Feed>, feed: Feed) returns (ok: bool)
      requires db.Valid() && FeedIndex(db) && feed.id.Some?
      modifies db
      ensures db.Valid() && FeedIndex(db)
      ensures ok <==> forall j :: j in old(db.records) && j != feed.id.value ==> old(db.records)[j].feedUrl != feed.feedUrl
      ensures ok ==> db.records == old(db.records)[feed.id.value := feed]
      ensures !ok ==> db.records == old(db.records)
    {
      ok := db.Put(feed.id.value, feed, feed.feedUrl);
    }

    /** removeFeed: forget the feed's item set, then deleteFeed. */
    method RemoveFeed(db: Store<Feed>, id: Id)
      requires db.Valid() && FeedIndex(db)
      modifies this, db
      ensures db.Valid() && FeedIndex(db)
      ensures itemSet == old(itemSet) - {id}
      ensures feeds == Removed(old(feeds), {id})
      ensures db.records == old(db.records) - {id}
    {
      itemSet := itemSet - {id};
      DeleteFeed(db, id);
    }

    /** deleteFeed: every occurrence of the id leaves the rotation, the rest
        keep their order, and the record leaves the store. */
    method DeleteFeed(db: Store<Feed>, id: Id)
      requires db.Valid() && FeedIndex(db)
      modifies this, db
      ensures db.Valid() && FeedIndex(db)
      ensures itemSet == old(itemSet)
      ensures feeds == Removed(old(feeds), {id})
      ensures id !in feeds && forall k :: k in feeds <==> k in old(feeds) && k != id
      ensures db.records == old(db.records) - {id}
    {
      RemovedSplit(feeds, {id});
      feeds := Removed(feeds, {id});
      db.Delete(id);
    }

    /** itemsOf: an unknown feed has no items. */
    function ItemsOf(feedId: Id): (s: set<Id>)
      reads this
      ensures feedId !in itemSet ==> s == {}
      ensures feedId in itemSet ==> s == itemSet[feedId]
    {
      SetOf(itemSet, feedId)
    }

    /** addItem: the set is created on first use. */
    method AddItem(feedId: Id, itemId: Id)
      modifies this
      ensures feeds == old(feeds)
      ensures itemSet == old(itemSet)[feedId := old(ItemsOf(feedId)) + {itemId}]
      ensures ItemsOf(feedId) == old(ItemsOf(feedId)) + {itemId}
      ensures forall g :: g != feedId ==> ItemsOf(g) == old(ItemsOf(g))
    {
      if feedId in itemSet {
        itemSet := itemSet[feedId := itemSet[feedId] + {itemId}];
      } else {
        assert {} + {itemId} == {itemId};
        itemSet := itemSet[feedId := {itemId}];
      }
    }

    /** removeItem: a no-op on an unknown feed. */
    method RemoveItem(feedId: Id, itemId: Id)
      modifies this
      ensures feeds == old(feeds)
      ensures feedId !in old(itemSet) ==> itemSet == old(itemSet)
      ensures feedId in old(itemSet) ==> itemSet == old(itemSet)[feedId := old(itemSet)[feedId] - {itemId}]
      ensures ItemsOf(feedId) == old(ItemsOf(feedId)) - {itemId}
      ensures forall g :: g != feedId ==> ItemsOf(g) == old(ItemsOf(g))
    {
      if feedId in itemSet {
        itemSet := itemSet[feedId := itemSet[feedId] - {itemId}];
      }
    }
  }

  /** The item set of a feed in a per-feed map; an unknown feed has none. */
  function SetOf(itemSet: map<Id, set<Id>>, feedId: Id): set<Id> {
    if feedId in itemSet then itemSet[feedId] else {}
  }

  /** A rotation keeps the queue free of duplicates. */
  lemma RotatedDistinct(s: seq<Id>)
    requires |s| > 0 && Distinct(s)
    ensures Distinct(Rotated(s))
  {
    var r := Rotated(s);
    forall i, j | 0 <= i < j < |r| ensures r[i] != r[j] {
      if j == |r| - 1 {
        assert r[i] == s[i + 1] && r[j] == s[0];
      } else {
        assert r[i] == s[i + 1] && r[j] == s[j + 1];
      }
    }
  }
}
