/** The older feed registry of src/feeds.js: only the queue `feeds` of
    feed ids, oldest load first. `first` pops the head, a new feed goes to
    the front, and there is no per-feed item map. The module exports no
    `rotate` (its body is empty), so it is not part of this model. */
module LegacyFeeds {
  import opened Wrappers
  import opened Records
  import opened Seqs
  import opened ObjectStore
  import opened Feeds

  class LegacyRegistry {
    /** Feed ids; the head is the next load candidate. */
    var feeds: seq<Id>

    constructor()
      ensures feeds == []
    {
      feeds := [];
    }

    /** load: every stored feed once, oldest `lastLoadTime` first. `order`
        is what the `lastLoadTime` index cursor yields. */
    method Load(db: Store<Feed>, order: seq<Id>)
      requires LoadTimeOrder(db.records, order)
      modifies this
      ensures Distinct(feeds)
      ensures forall k :: k in feeds <==> k in db.records
      ensures forall i, j :: 0 <= i < j < |feeds| ==>
        db.records[feeds[i]].lastLoadTime <= db.records[feeds[j]].lastLoadTime
    {
      feeds := [];
      var i := 0;
      while i < |order|
        invariant 0 <= i <= |order|
        invariant feeds == order[..i]
      {
        feeds := feeds + [order[i]];
        i := i + 1;
      }
      assert feeds == order;
    }

    /** first: pops the head. The emptiness test reads a misspelled length,
        so an empty queue yields `undefined` (here `None`) rather than
        `null`, which the caller treats alike. */
    method First() returns (head: Option<Id>)
      modifies this
      ensures head.None? <==> old(feeds) == []
      ensures old(feeds) == (if head.Some? then [head.value] else []) + feeds
      ensures |feeds| == if old(feeds) == [] then 0 else |old(feeds)| - 1
    {
      if feeds == [] {
        head := None;
      } else {
        head := Some(feeds[0]);
        feeds := feeds[1..];
      }
    }

    /** get: the stored record, or `undefined` for a missing key. */
    function Get(db: Store<Feed>, id: Id): (f: Option<Feed>)
      reads db
      ensures f.Some? <==> id in db.records
      ensures f.Some? ==> f.value == db.records[id]
    {
      if id in db.records then Some(db.records[id]) else None
    }

    /** addFeed: `add` under the feed's own `id`, or under a generated key
        when it has none, which the store writes into its copy of the
        record only; the new id goes to the front of the queue. On a
        conflict the `add` throws and nothing changes. */
    method AddFeed(db: Store<Feed>, feed: Feed) returns (id: Option<Id>)
      requires db.Valid() && FeedIndex(db)
      modifies this, db
      ensures db.Valid() && FeedIndex(db)
      ensures id.None? <==> old(db.HasUrl(feed.feedUrl)) || (feed.id.Some? && feed.id.value in old(db.records))
      ensures id.None? ==> db.records == old(db.records) && feeds == old(feeds)
      ensures id.Some? ==>
        && id.value !in old(db.records)
        && id.value == (if feed.id.Some? then feed.id.value else old(db.nextKey))
        && db.records == old(db.records)[id.value := feed.(id := id)]
        && feeds == [id.value] + old(feeds)
    {
      if feed.id.Some? {
        id := db.Add(feed, feed.feedUrl, feed.id);
      } else {
        id := db.Add(feed.(id := Some(db.nextKey)), feed.feedUrl, None);
      }
      if id.Some? {
        feeds := [id.value] + feeds;
      }
    }

    /** updateFeed: `put` of the record as the caller holds it: under its
        `id`, or under a generated key when it has none. The source does
        not wait for the write, so its failure is never seen. */
    method UpdateFeed(db: Store<Feed>, feed: Feed) returns (ok: bool)
      requires db.Valid() && FeedIndex(db)
      modifies db
      ensures db.Valid() && FeedIndex(db)
      ensures feed.id.Some? ==> (ok <==> forall j :: j in old(db.records) && j != feed.id.value ==> old(db.records)[j].feedUrl != feed.feedUrl)
      ensures feed.id.Some? && ok ==> db.records == old(db.records)[feed.id.value := feed]
      ensures feed.id.None? ==> (ok <==> !old(db.HasUrl(feed.feedUrl)))
      ensures feed.id.None? && ok ==> db.records == old(db.records)[old(db.nextKey) := feed.(id := Some(old(db.nextKey)))]
      ensures !ok ==> db.records == old(db.records)
    {
      if feed.id.Some? {
        ok := db.Put(feed.id.value, feed, feed.feedUrl);
      } else {
        var k := db.Add(feed.(id := Some(db.nextKey)), feed.feedUrl, None);
        ok := k.Some?;
      }
    }

    /** removeFeed: every occurrence of the id leaves the queue, the rest
        keep their order, and the record leaves the store. */
    method RemoveFeed(db: Store<Feed>, id: Id)
      requires db.Valid() && FeedIndex(db)
      modifies this, db
      ensures db.Valid() && FeedIndex(db)
      ensures feeds == Removed(old(feeds), {id})
      ensures forall k :: k in feeds <==> k in old(feeds) && k != id
      ensures db.records == old(db.records) - {id}
    {
      RemovedSplit(feeds, {id});
      feeds := Removed(feeds, {id});
      db.Delete(id);
    }
  }

  /** A feed the store already holds under its URL cannot be stored again
      without an id: the closing `put` of a new feed's merge always fails. */
  lemma NewFeedPutFails(db: Store<Feed>, feed: Feed, k: Id)
    requires db.Valid() && FeedIndex(db) && feed.id.None?
    requires k in db.records && db.records[k].feedUrl == feed.feedUrl
    ensures db.HasUrl(feed.feedUrl)
  {
    assert db.urls[k] == feed.feedUrl;
  }
}
