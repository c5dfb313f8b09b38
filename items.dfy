/** The reading timeline of public/items.js: the ascending array `items` of
    stored item ids, the `reading` cursor into it and `readCount`, the
    number of timeline items whose `read` flag is set. Item records live in
    an object store with a unique index on `url`; the registry of
    public/feeds.js tracks which item ids belong to which feed. */
module Items {
  import opened Wrappers
  import opened Records
  import opened Seqs
  import opened ObjectStore
  import opened Feeds
  import opened ItemSpecs

  /** The item store's unique index is on `url`. */
  ghost predicate UrlIndexOn(recs: map<Id, Item>, urls: map<Id, string>) {
    forall k :: k in recs ==> k in urls && urls[k] == recs[k].url
  }

  ghost predicate ItemIndex(db: Store<Item>)
    reads db
  {
    UrlIndexOn(db.records, db.urls)
  }

  lemma UrlIndexDelete(recs: map<Id, Item>, urls: map<Id, string>, x: Id)
    requires UrlIndexOn(recs, urls)
    ensures UrlIndexOn(recs - {x}, urls - {x})
  {
  }

  lemma UrlIndexPut(recs: map<Id, Item>, urls: map<Id, string>, x: Id, item: Item)
    requires UrlIndexOn(recs, urls)
    ensures UrlIndexOn(recs[x := item], urls[x := item.url])
  {
  }

  /** The per-feed sets agree with the item records: every id in a feed's
      set is a stored item of that feed, and every stored item is in its
      feed's set. */
  ghost predicate IndexedOn(itemSet: map<Id, set<Id>>, recs: map<Id, Item>) {
    && (forall f, x :: x in SetOf(itemSet, f) ==> x in recs && recs[x].feedId == f)
    && (forall x :: x in recs ==> x in SetOf(itemSet, recs[x].feedId))
  }

  /** `IndexedOn` for every feed but `feedId`, which owns no stored item any
      more while its set may still name deleted ones. */
  ghost predicate IndexedExceptOn(itemSet: map<Id, set<Id>>, recs: map<Id, Item>, feedId: Id) {
    && (forall f, x :: f != feedId && x in SetOf(itemSet, f) ==> x in recs && recs[x].feedId == f)
    && (forall x :: x in recs ==> recs[x].feedId != feedId && x in SetOf(itemSet, recs[x].feedId))
  }

  /** The registry's item sets agree with the item store. */
  ghost predicate Indexed(reg: Registry, db: Store<Item>)
    reads reg, db
  {
    IndexedOn(reg.itemSet, db.records)
  }

  ghost predicate IndexedExcept(reg: Registry, db: Store<Item>, feedId: Id)
    reads reg, db
  {
    IndexedExceptOn(reg.itemSet, db.records, feedId)
  }

  /** Forgetting the set of the feed whose items are all gone restores the
      index. */
  lemma IndexedAfterRemoval(itemSet: map<Id, set<Id>>, recs: map<Id, Item>, feedId: Id)
    requires IndexedExceptOn(itemSet, recs, feedId)
    ensures IndexedOn(itemSet - {feedId}, recs)
  {
    forall f, x | x in SetOf(itemSet - {feedId}, f) ensures x in recs && recs[x].feedId == f {
      assert f != feedId && x in SetOf(itemSet, f);
    }
  }

  /** Deleting one stored item together with its id in its feed's set
      keeps the index. */
  lemma IndexedRemoveOne(itemSet: map<Id, set<Id>>, recs: map<Id, Item>, x: Id)
    requires IndexedOn(itemSet, recs) && x in recs
    ensures var f := recs[x].feedId;
      IndexedOn(if f in itemSet then itemSet[f := itemSet[f] - {x}] else itemSet, recs - {x})
  {
    var f := recs[x].feedId;
    assert x in SetOf(itemSet, f);
    var m := itemSet[f := itemSet[f] - {x}];
    var r := recs - {x};
    forall g, y | y in SetOf(m, g) ensures y in r && r[y].feedId == g {
      assert y in SetOf(itemSet, g) && y != x;
    }
    forall y | y in r ensures y in SetOf(m, r[y].feedId) {
      assert y in SetOf(itemSet, recs[y].feedId);
    }
  }

  /** Storing a new item together with its id in its feed's set keeps the
      index. */
  lemma IndexedAddOne(itemSet: map<Id, set<Id>>, recs: map<Id, Item>, x: Id, item: Item)
    requires IndexedOn(itemSet, recs) && x !in recs
    ensures IndexedOn(itemSet[item.feedId := SetOf(itemSet, item.feedId) + {x}], recs[x := item])
  {
    var m := itemSet[item.feedId := SetOf(itemSet, item.feedId) + {x}];
    var r := recs[x := item];
    forall g, y | y in SetOf(m, g) ensures y in r && r[y].feedId == g {
      if g != item.feedId {
        assert SetOf(m, g) == SetOf(itemSet, g);
        assert y in recs && y != x;
      } else if y != x {
        assert y in SetOf(itemSet, g);
      }
    }
    forall y | y in r ensures y in SetOf(m, r[y].feedId) {
      if y != x {
        assert y in SetOf(itemSet, recs[y].feedId);
      }
    }
  }

  /** The ids of `s` that name stored items of feed `f`. */
  ghost function FeedMembers(s: seq<Id>, recs: map<Id, Item>, f: Id): set<Id> {
    set x | x in s && x in recs && recs[x].feedId == f
  }

  /** The per-feed sets after `addItem` of every id of `s`, in order, under
      its stored feed. */
  ghost function AddedAll(itemSet: map<Id, set<Id>>, s: seq<Id>, recs: map<Id, Item>): map<Id, set<Id>> {
    if s == [] then itemSet
    else
      var m := AddedAll(itemSet, s[..|s| - 1], recs);
      var x := s[|s| - 1];
      if x in recs then m[recs[x].feedId := SetOf(m, recs[x].feedId) + {x}] else m
  }

  /** Each feed's set gains exactly the listed ids of that feed. */
  lemma {:induction false} AddedAllSpec(itemSet: map<Id, set<Id>>, s: seq<Id>, recs: map<Id, Item>)
    ensures forall f :: SetOf(AddedAll(itemSet, s, recs), f) == SetOf(itemSet, f) + FeedMembers(s, recs, f)
  {
    if s != [] {
      var init := s[..|s| - 1];
      AddedAllSpec(itemSet, init, recs);
      assert s == init + [s[|s| - 1]];
      forall f ensures FeedMembers(s, recs, f) == FeedMembers(init, recs, f)
                                        + (if s[|s| - 1] in recs && recs[s[|s| - 1]].feedId == f then {s[|s| - 1]} else {}) {
      }
    }
  }

  /** A timeline over the item records: the same ids, ascending (the key
      generator hands out increasing keys and the timeline appends), an
      exact read count, and the cursor below the length. */
  ghost predicate TimelineOn(items: seq<Id>, recs: map<Id, Item>, readCount: int, reading: int) {
    && Ascending(items)
    && (forall k :: k in recs <==> k in items)
    && readCount == CountRead(items, recs)
    && reading < |items|
  }

  /** Deleting the item at index `r` keeps a timeline. */
  lemma TimelineDelete(s: seq<Id>, recs: map<Id, Item>, readCount: int, reading: int, r: int)
    requires TimelineOn(s, recs, readCount, reading) && 0 <= r < |s|
    ensures TimelineOn(s[..r] + s[r + 1..], recs - {s[r]},
                       readCount - (if recs[s[r]].read then 1 else 0),
                       if reading == |s| - 1 then reading - 1 else reading)
  {
    AscendingDistinct(s);
    CountReadDelete(s, recs, r);
    SpliceOut(s, r);
  }

  /** Setting the read flag of the item at index `i` keeps a timeline and
      counts the item if it was unread. */
  lemma TimelineMark(s: seq<Id>, recs: map<Id, Item>, readCount: int, reading: int, i: int)
    requires TimelineOn(s, recs, readCount, reading) && 0 <= i < |s|
    ensures s[i] in recs
    ensures TimelineOn(s, recs[s[i] := recs[s[i]].(read := true)],
                       readCount + (if recs[s[i]].read then 0 else 1), reading)
  {
    AscendingDistinct(s);
    CountReadMark(s, recs, i);
  }

  /** Appending a fresh key with an unread record keeps a timeline. */
  lemma TimelinePush(s: seq<Id>, recs: map<Id, Item>, readCount: int, reading: int, k: Id, item: Item)
    requires TimelineOn(s, recs, readCount, reading) && !item.read
    requires forall x :: x in recs ==> x < k
    ensures TimelineOn(s + [k], recs[k := item], readCount, if reading < 0 then 0 else reading)
  {
    AscendingAppend(s, k);
    CountReadAppend(s, [k], recs);
    assert [k][..0] == [];
    CountReadFrame(s, recs, recs[k := item]);
    CountReadAppend(s, [k], recs[k := item]);
  }

  /** One step of `deleteAllItemsOfFeed`'s scan: the id `x` after the
      ids `pre` joins the kept or the deleted ones. */
  lemma DeleteAllStep(pre: seq<Id>, x: Id, drop: set<Id>, recs: map<Id, Item>)
    requires x !in pre
    ensures Removed(pre + [x], drop) == Removed(pre, drop) + (if x in drop then [] else [x])
    ensures Only(pre + [x], drop) == Only(pre, drop) + (if x in drop then [x] else [])
    ensures CountRead(Only(pre + [x], drop), recs)
         == CountRead(Only(pre, drop), recs) + (if x in drop && IsRead(recs, x) then 1 else 0)
    ensures RemoveKeys(recs, Only(pre + [x], drop))
         == RemoveKeys(recs, Only(pre, drop)) - (if x in drop then {x} else {})
    ensures x in recs ==>
      x in RemoveKeys(recs, Only(pre, drop)) && RemoveKeys(recs, Only(pre, drop))[x] == recs[x]
  {
    var q := pre + [x];
    assert q[..|pre|] == pre;
    var o := Only(pre, drop);
    if x in drop {
      var o' := o + [x];
      assert Only(q, drop) == o';
      assert o'[..|o|] == o && o'[|o|] == x;
      assert CountRead(o', recs) == CountRead(o, recs) + (if IsRead(recs, x) then 1 else 0);
      assert RemoveKeys(recs, o') == RemoveKeys(recs, o) - {x};
    } else {
      assert Only(q, drop) == o;
      assert RemoveKeys(recs, o) - {} == RemoveKeys(recs, o);
    }
    RemovedSplit(pre, drop);
    RemoveKeysSpec(recs, o);
  }

  /** The timeline `deleteAllItemsOfFeed` leaves: the surviving ids in
      order, the store without the feed's items, the read count of the
      survivors and the as-written cursor. */
  lemma DeleteAllOn(s: seq<Id>, recs: map<Id, Item>, readCount: int, reading: int, drop: set<Id>)
    requires TimelineOn(s, recs, readCount, reading)
    ensures RemoveKeys(recs, Only(s, drop)) == recs - drop
    ensures TimelineOn(Removed(s, drop), recs - drop, readCount - CountRead(Only(s, drop), recs),
                       CursorAfterDelete(s, reading, drop))
  {
    DeletedKeys(s, recs, drop);
    RemovedAscending(s, drop);
    DeletedCount(s, recs, drop);
    CursorAfterDeleteBound(s, reading, drop);
  }

  /** The end of `deleteAllItemsOfFeed`'s scan: the timeline it leaves. */
  lemma DeleteAllDone(s: seq<Id>, recs: map<Id, Item>, rc0: int, r0: int, drop: set<Id>,
                      records: map<Id, Item>, after: seq<Id>, rc: int, shrink: int, next: int)
    requires TimelineOn(s, recs, rc0, r0)
    requires Scanned(s, |s|, drop, r0, recs, rc0, records, after, rc, shrink)
    requires next == if r0 - shrink == |after| then r0 - shrink - 1 else r0 - shrink
    ensures after == Removed(s, drop)
    ensures records == recs - drop
    ensures rc == rc0 - CountRead(Only(s, drop), recs)
    ensures next == CursorAfterDelete(s, r0, drop)
    ensures TimelineOn(after, records, rc, next)
  {
    assert s[..|s|] == s;
    assert after == Removed(s, drop) && shrink == Shrink(s, r0, drop);
    assert records == RemoveKeys(recs, Only(s, drop));
    assert rc == rc0 - CountRead(Only(s, drop), recs);
    DeleteAllOn(s, recs, rc0, r0, drop);
  }

  lemma DeletedKeys(s: seq<Id>, recs: map<Id, Item>, drop: set<Id>)
    requires forall k :: k in recs <==> k in s
    ensures RemoveKeys(recs, Only(s, drop)) == recs - drop
    ensures forall k :: k in recs - drop <==> k in Removed(s, drop)
  {
    RemoveKeysSpec(recs, Only(s, drop));
    RemovedSplit(s, drop);
  }

  lemma DeletedCount(s: seq<Id>, recs: map<Id, Item>, drop: set<Id>)
    ensures CountRead(Removed(s, drop), recs - drop) == CountRead(s, recs) - CountRead(Only(s, drop), recs)
  {
    RemovedSplit(s, drop);
    CountReadSplit(s, drop, recs);
    CountReadFrame(Removed(s, drop), recs, recs - drop);
  }

  /** With the index intact, deleting every stored item of one feed leaves
      the index intact for the other feeds. */
  lemma IndexedDropFeed(itemSet: map<Id, set<Id>>, recs: map<Id, Item>, feedId: Id)
    requires IndexedOn(itemSet, recs)
    ensures IndexedExceptOn(itemSet, recs - SetOf(itemSet, feedId), feedId)
  {
    var r := recs - SetOf(itemSet, feedId);
    forall f, x | f != feedId && x in SetOf(itemSet, f) ensures x in r && r[x].feedId == f {
      assert x in recs && recs[x].feedId == f;
      assert x !in SetOf(itemSet, feedId);
    }
    forall x | x in r ensures r[x].feedId != feedId && x in SetOf(itemSet, r[x].feedId) {
      assert x in SetOf(itemSet, recs[x].feedId);
    }
  }

  /** Cutting index `i` out of an ascending timeline. */
  lemma SpliceOut(s: seq<Id>, i: int)
    requires Ascending(s) && 0 <= i < |s|
    ensures var t := s[..i] + s[i + 1..];
      && Ascending(t) && |t| == |s| - 1
      && (forall k :: k in t <==> k in s && k != s[i])
  {
    var t := s[..i] + s[i + 1..];
    forall k | k in s && k != s[i] ensures k in t {
      var j :| 0 <= j < |s| && s[j] == k;
      if j < i {
        assert t[j] == k;
      } else {
        assert t[j - 1] == k;
      }
    }
    forall a, b | 0 <= a < b < |t| ensures t[a] < t[b] {
      var a' := if a < i then a else a + 1;
      var b' := if b < i then b else b + 1;
      assert a' < b';
      assert t[a] == s[a'] && t[b] == s[b'];
    }
  }

  class Timeline {
    /** Ids of the items on the timeline, oldest first. */
    var items: seq<Id>
    /** Index of the item being read; negative when there is none. */
    var reading: int
    /** How many timeline items are read. */
    var readCount: int

    constructor()
      ensures items == [] && reading == -1 && readCount == 0
    {
      items := [];
      reading := -1;
      readCount := 0;
    }

    /** The timeline mirrors the item store: the same ids, ascending (the
        key generator hands out increasing keys and the timeline appends),
        the read count is exact, and the cursor is below the length. */
    ghost predicate Valid(db: Store<Item>)
      reads this, db
    {
      && db.Valid() && ItemIndex(db)
      && TimelineOn(items, db.records, readCount, reading)
    }

    /** The cursor is on an item, or -1 exactly when the timeline is empty. */
    predicate CursorOk()
      reads this
    {
      -1 <= reading && (reading == -1 <==> items == [])
    }

    /** unreadCount. */
    function UnreadCount(): int
      reads this
    {
      |items| - readCount
    }

    /** The unread count is the number of timeline items whose flag is not
        set, so it lies between 0 and the length. */
    lemma UnreadCountMeaning(db: Store<Item>)
      requires Valid(db)
      ensures UnreadCount() == CountUnread(items, db.records)
      ensures 0 <= UnreadCount() <= |items|
    {
      CountReadUnread(items, db.records);
    }

    /** isCurrentItem: the id at the cursor; an index outside the timeline
        names no item. */
    function IsCurrentItem(id: Id): (r: bool)
      reads this
      ensures r ==> id in items
      ensures r ==> forall j :: 0 <= j < |items| && items[j] == id && Ascending(items) ==> j == reading
      ensures 0 <= reading < |items| ==> (r <==> items[reading] == id)
      ensures !(0 <= reading < |items|) ==> !r
    {
      0 <= reading < |items| && items[reading] == id
    }

    /** updateReadCount: the item at a non-negative cursor gets its flag
        set in the store, and the count rises when it was unread. */
    method UpdateReadCount(db: Store<Item>)
      requires Valid(db)
      modifies this, db
      ensures Valid(db)
      ensures items == old(items) && reading == old(reading)
      ensures reading < 0 ==> db.records == old(db.records) && readCount == old(readCount)
      ensures 0 <= reading ==>
        && db.records == old(db.records)[items[reading] := old(db.records)[items[reading]].(read := true)]
        && readCount == old(readCount) + (if old(db.records)[items[reading]].read then 0 else 1)
    {
      if reading >= 0 {
        MarkCurrent(db);
      }
    }

    /** `updateReadCount` on an item. */
    method MarkCurrent(db: Store<Item>)
      requires Valid(db) && 0 <= reading
      modifies this, db
      ensures Valid(db)
      ensures items == old(items) && reading == old(reading)
      ensures db.records == old(db.records)[items[reading] := old(db.records)[items[reading]].(read := true)]
      ensures readCount == old(readCount) + (if old(db.records)[items[reading]].read then 0 else 1)
    {
      var id := items[reading];
      var item := db.records[id];
      var rc := readCount + (if item.read then 0 else 1);
      TimelineMark(items, db.records, readCount, reading, reading);
      MarkRead(db, id);
      SetTimeline(db, items, rc, reading);
    }

    /** forward: mark the current item read, then step forward unless the
        cursor is on the last item (or beyond it). */
    method Forward(db: Store<Item>) returns (moved: bool)
      requires Valid(db)
      modifies this, db
      ensures Valid(db)
      ensures items == old(items)
      ensures moved <==> old(reading) < |items| - 1
      ensures reading == if moved then old(reading) + 1 else old(reading)
      ensures old(reading) < 0 ==> db.records == old(db.records) && readCount == old(readCount)
      ensures 0 <= old(reading) ==>
        && db.records == old(db.records)[items[old(reading)] := old(db.records)[items[old(reading)]].(read := true)]
        && readCount == old(readCount) + (if old(db.records)[items[old(reading)]].read then 0 else 1)
      ensures old(CursorOk()) ==> CursorOk()
    {
      UpdateReadCount(db);
      if reading >= |items| - 1 {
        return false;
      }
      SetCursor(db, reading + 1);
      moved := true;
    }

    /** backward: mark the current item read, then step back unless the
        cursor is at the first item (or before it). */
    method Backward(db: Store<Item>) returns (moved: bool)
      requires Valid(db)
      modifies this, db
      ensures Valid(db)
      ensures items == old(items)
      ensures moved <==> old(reading) > 0
      ensures reading == if moved then old(reading) - 1 else old(reading)
      ensures old(reading) < 0 ==> db.records == old(db.records) && readCount == old(readCount)
      ensures 0 <= old(reading) ==>
        && db.records == old(db.records)[items[old(reading)] := old(db.records)[items[old(reading)]].(read := true)]
        && readCount == old(readCount) + (if old(db.records)[items[old(reading)]].read then 0 else 1)
      ensures old(CursorOk()) ==> CursorOk()
    {
      UpdateReadCount(db);
      if reading <= 0 {
        return false;
      }
      SetCursor(db, reading - 1);
      moved := true;
    }

    /** deleteCurrentItem: the item at the cursor leaves the timeline, the
        store and its feed's set; the cursor stays put unless it was on the
        last item. */
    method DeleteCurrentItem(db: Store<Item>, reg: Registry) returns (deleted: bool)
      requires Valid(db)
      modifies this, db, reg
      ensures Valid(db)
      ensures deleted <==> old(reading) >= 0
      ensures !deleted ==>
        && items == old(items) && reading == old(reading) && readCount == old(readCount)
        && db.records == old(db.records) && reg.itemSet == old(reg.itemSet)
      ensures deleted ==>
        var i := old(reading);
        var x := old(items)[i];
        var f := old(db.records)[x].feedId;
        && items == old(items)[..i] + old(items)[i + 1..]
        && |items| == |old(items)| - 1
        && db.records == old(db.records) - {x}
        && readCount == old(readCount) - (if old(db.records)[x].read then 1 else 0)
        && reading == (if i == |items| then i - 1 else i)
        && reg.ItemsOf(f) == old(reg.ItemsOf(f)) - {x}
        && (forall g :: g != f ==> reg.ItemsOf(g) == old(reg.ItemsOf(g)))
      ensures reg.feeds == old(reg.feeds)
      ensures old(Indexed(reg, db)) ==> Indexed(reg, db)
      ensures old(CursorOk()) ==> CursorOk()
    {
      if reading < 0 {
        return false;
      }
      var id := items[reading];
      var item := db.records[id];
      RemoveCurrent(db);
      reg.RemoveItem(item.feedId, id);
      if old(Indexed(reg, db)) {
        IndexedRemoveOne(old(reg.itemSet), old(db.records), id);
      }
      deleted := true;
    }

    /** The timeline and store half of `DeleteCurrentItem`. */
    method RemoveCurrent(db: Store<Item>)
      requires Valid(db) && 0 <= reading
      modifies this, db
      ensures Valid(db)
      ensures var i := old(reading);
        var x := old(items)[i];
        && items == old(items)[..i] + old(items)[i + 1..]
        && db.records == old(db.records) - {x}
        && readCount == old(readCount) - (if old(db.records)[x].read then 1 else 0)
        && reading == (if i == |items| then i - 1 else i)
    {
      var i := reading;
      var x := items[i];
      var rest := items[..i] + items[i + 1..];
      var next := if i == |items| - 1 then i - 1 else i;
      var rc := readCount - (if db.records[x].read then 1 else 0);
      TimelineDelete(items, db.records, readCount, i, i);
      UrlIndexDelete(db.records, db.urls, x);
      db.Delete(x);
      SetTimeline(db, rest, rc, next);
    }

    /** deleteAllItemsOfFeed, as written: every timeline id in the feed's
        set leaves the timeline and the store, the read count drops by the
        read ones, and the cursor moves back by the deleted ids at or
        before it (by all of them when it is negative), then off the end
        if it is there. The feed's set itself is left alone. */
    method DeleteAllItemsOfFeed(db: Store<Item>, reg: Registry, feedId: Id)
      requires Valid(db)
      modifies this, db
      ensures Valid(db)
      ensures var drop := reg.ItemsOf(feedId);
        && items == Removed(old(items), drop)
        && db.records == old(db.records) - drop
        && readCount == old(readCount) - CountRead(Only(old(items), drop), old(db.records))
        && reading == CursorAfterDelete(old(items), old(reading), drop)
      ensures old(Indexed(reg, db)) ==> IndexedExcept(reg, db, feedId)
    {
      var drop := reg.ItemsOf(feedId);
      var s, r0, rc0 := items, reading, readCount;
      ghost var recs := db.records;
      ElementsOn(s, recs, rc0, r0);
      var after, rc, shrink := DeleteMarked(db, s, drop, r0, rc0);
      var next := r0 - shrink;
      if next == |after| {
        next := next - 1;
      }
      DeleteAllDone(s, recs, rc0, r0, drop, db.records, after, rc, shrink, next);
      SetTimeline(db, after, rc, next);
      if old(Indexed(reg, db)) {
        IndexedDropFeed(reg.itemSet, recs, feedId);
      }
    }

    /** The corrected `deleteAllItemsOfFeed`: as written, then a cursor that
        fell off the front while items remain moves onto the first one. */
    method DeleteAllItemsOfFeedClamped(db: Store<Item>, reg: Registry, feedId: Id)
      requires Valid(db)
      modifies this, db
      ensures Valid(db)
      ensures var drop := reg.ItemsOf(feedId);
        && items == Removed(old(items), drop)
        && db.records == old(db.records) - drop
        && readCount == old(readCount) - CountRead(Only(old(items), drop), old(db.records))
        && reading == ClampedCursor(old(items), old(reading), drop)
      ensures old(Indexed(reg, db)) ==> IndexedExcept(reg, db, feedId)
      ensures old(CursorOk()) ==> CursorOk()
    {
      ghost var s, r0 := items, reading;
      DeleteAllItemsOfFeed(db, reg, feedId);
      ClampCursor(db);
      if -1 <= r0 && (r0 == -1 <==> s == []) {
        ClampedCursorOk(s, r0, reg.ItemsOf(feedId));
      }
    }

    /** The timeline becomes `s` with read count `rc` and cursor `r`. */
    method SetTimeline(db: Store<Item>, s: seq<Id>, rc: int, r: int)
      requires db.Valid() && ItemIndex(db) && TimelineOn(s, db.records, rc, r)
      modifies this
      ensures Valid(db) && items == s && readCount == rc && reading == r
    {
      items, readCount, reading := s, rc, r;
    }

    /** The cursor moves to `r`. */
    method SetCursor(ghost db: Store<Item>, r: int)
      requires Valid(db) && r < |items|
      modifies this
      ensures Valid(db) && items == old(items) && readCount == old(readCount) && reading == r
    {
      reading := r;
    }

    /** A cursor before the front moves onto the first item, if any. */
    method ClampCursor(ghost db: Store<Item>)
      requires Valid(db)
      modifies this
      ensures Valid(db)
      ensures items == old(items) && readCount == old(readCount)
      ensures reading == if old(reading) < 0 && items != [] then 0 else old(reading)
    {
      if reading < 0 && items != [] {
        reading := 0;
      }
    }

    /** load: rebuild the timeline from the item store under the retention
        rule, delete what it does not retain, add every retained item to its
        feed's set and put the cursor on the oldest unread item. The two
        settings are the `parseInt` results of the stored `MAX_KEPT_PERIOD`
        (days, default 180) and `MAX_ITEMS_PER_FEED` (default 100). */
    method Load(db: Store<Item>, reg: Registry, now: int, storedPeriod: Option<int>, storedMaxItems: Option<int>)
      requires db.Valid() && ItemIndex(db)
      modifies this, db, reg
      ensures Valid(db) && CursorOk()
      ensures var recs := old(db.records);
        var maxKeptPeriod := ParsedOr(storedPeriod, 180);
        var maxKeptItems := ParsedOr(storedMaxItems, 100);
        && items == Reverse(ScanFrom(recs, 1, old(db.nextKey), now, maxKeptPeriod, maxKeptItems).kept)
        && (forall x :: x in recs ==>
              (x in items <==>
                 Young(recs[x], now, maxKeptPeriod) && CountFeedAbove(items, recs, recs[x].feedId, x) < maxKeptItems))
        && (forall f :: CountFeedAbove(items, recs, f, 0) <= if maxKeptItems < 0 then 0 else maxKeptItems)
        && (forall x :: x in db.records <==> x in recs && x in items)
        && (forall x :: x in db.records ==> db.records[x] == recs[x])
        && readCount == CountRead(items, recs)
        && reading == LoadCursor(items, recs)
      ensures reg.feeds == old(reg.feeds)
      ensures forall f :: reg.ItemsOf(f) == old(reg.ItemsOf(f)) + FeedMembers(items, old(db.records), f)
      ensures old(reg.itemSet) == map[] ==> Indexed(reg, db)
    {
      var maxKeptPeriod := ParsedOr(storedPeriod, 180);
      var maxKeptItems := ParsedOr(storedMaxItems, 100);
      ghost var recs, itemSet0 := db.records, reg.itemSet;
      var buffer, perFeedCounter, expired, rc, unread := ScanStore(db, reg, now, maxKeptPeriod, maxKeptItems);
      DeleteExpired(db, expired);
      var next := if unread == 0 then |buffer| - 1 else |buffer| - unread;
      LoadOn(recs, db.nextKey, now, maxKeptPeriod, maxKeptItems, buffer, perFeedCounter, expired, rc, unread, db.records);
      LoadRetention(recs, db.nextKey, now, maxKeptPeriod, maxKeptItems);
      CountReadReverse(buffer, recs);
      LoadSets(itemSet0, buffer, recs, db.records);
      SetTimeline(db, Reverse(buffer), rc, next);
    }

    /** pushItem: a store conflict on the URL changes nothing; otherwise the
        generated key is appended, joins its feed's set, and a negative
        cursor moves to the first item. The source never touches
        `readCount` here, so a read item would put it out of step with the
        timeline; every caller pushes an unread item (`Stamp`, `OopsItem`,
        `QuietItem`), which `!item.read` records. */
    method PushItem(db: Store<Item>, reg: Registry, item: Item) returns (id: Option<Id>)
      requires Valid(db) && !item.read
      modifies this, db, reg
      ensures Valid(db)
      ensures id.None? <==> old(db.HasUrl(item.url))
      ensures id.None? ==>
        && items == old(items) && reading == old(reading) && readCount == old(readCount)
        && db.records == old(db.records) && reg.itemSet == old(reg.itemSet)
      ensures id.Some? ==>
        && id.value !in old(items)
        && items == old(items) + [id.value]
        && db.records == old(db.records)[id.value := item]
        && readCount == old(readCount)
        && reading == (if old(reading) < 0 then 0 else old(reading))
        && reg.ItemsOf(item.feedId) == old(reg.ItemsOf(item.feedId)) + {id.value}
        && (forall g :: g != item.feedId ==> reg.ItemsOf(g) == old(reg.ItemsOf(g)))
      ensures reg.feeds == old(reg.feeds)
      ensures old(Indexed(reg, db)) ==> Indexed(reg, db)
      ensures old(CursorOk()) ==> CursorOk()
    {
      id := Append(db, item);
      if id.Some? {
        reg.AddItem(item.feedId, id.value);
        if old(Indexed(reg, db)) {
          IndexedAddOne(old(reg.itemSet), old(db.records), id.value, item);
        }
      }
    }

    /** The timeline and store half of `PushItem`. */
    method Append(db: Store<Item>, item: Item) returns (id: Option<Id>)
      requires Valid(db) && !item.read
      modifies this, db
      ensures Valid(db)
      ensures id.None? <==> old(db.HasUrl(item.url))
      ensures id.None? ==>
        items == old(items) && reading == old(reading) && readCount == old(readCount) && db.records == old(db.records)
      ensures id.Some? ==>
        && id.value !in old(db.records)
        && items == old(items) + [id.value]
        && db.records == old(db.records)[id.value := item]
        && readCount == old(readCount)
        && reading == (if old(reading) < 0 then 0 else old(reading))
    {
      ghost var recs, urls := db.records, db.urls;
      id := db.Add(item, item.url, None);
      if id.None? {
        return;
      }
      var k := id.value;
      TimelinePush(items, recs, readCount, reading, k, item);
      UrlIndexPut(recs, urls, k, item);
      SetTimeline(db, items + [k], readCount, if reading < 0 then 0 else reading);
    }

    /** allUrlsOfFeed: the URLs of the feed's stored items that are not
        placeholders, one per item and, by the unique URL index, without
        repetition. */
    method AllUrlsOfFeed(db: Store<Item>, reg: Registry, feedId: Id) returns (urls: seq<string>)
      requires db.Valid() && ItemIndex(db)
      requires forall x :: x in reg.ItemsOf(feedId) ==> x in db.records
      ensures forall u :: u in urls <==> u in UrlsOf(reg.ItemsOf(feedId), db.records)
      ensures |urls| == |NonDummy(reg.ItemsOf(feedId), db.records)|
      ensures Distinct(urls)
    {
      var recs := db.records;
      assert UniqueUrls(recs) by {
        forall a, b | a in recs && b in recs && recs[a].url == recs[b].url ensures a == b {
          assert db.urls[a] == db.urls[b];
        }
      }
      var all := reg.ItemsOf(feedId);
      var rest := all;
      urls := [];
      while rest != {}
        invariant rest <= all
        invariant UrlsSoFar(urls, all - rest, recs)
        decreases rest
      {
        var id :| id in rest;
        if !IsDummyItem(recs[id]) {
          UrlsSoFarAdd(urls, all, rest, recs, id);
          urls := urls + [recs[id].url];
        } else {
          UrlsSoFarSkip(urls, all, rest, recs, id);
        }
        rest := rest - {id};
      }
      assert all - rest == all;
    }
  }

  /** The state of `deleteAllItemsOfFeed`'s scan after the first `i` ids
      of the timeline `s`: the store `records` has lost the scanned ids in
      `drop`, `after` holds the scanned survivors, `rc` is the read count
      without the deleted read items, and `shrink` counts the deleted ids
      at or before the cursor `r0` (all of them while the cursor is not
      passed). */
  ghost predicate Scanned(s: seq<Id>, i: int, drop: set<Id>, r0: int, recs: map<Id, Item>, rc0: int,
                          records: map<Id, Item>, after: seq<Id>, rc: int, shrink: int)
    requires 0 <= i <= |s|
  {
    && records == RemoveKeys(recs, Only(s[..i], drop))
    && after == Removed(s[..i], drop)
    && rc == rc0 - CountRead(Only(s[..i], drop), recs)
    && shrink == Shrink(s[..i], r0, drop)
  }

  /** The next id to scan is still stored, unchanged. */
  lemma ScannedNext(s: seq<Id>, i: int, drop: set<Id>, r0: int, recs: map<Id, Item>, rc0: int,
                    records: map<Id, Item>, after: seq<Id>, rc: int, shrink: int)
    requires 0 <= i < |s| && FirstAt(s, i) && s[i] in recs
    requires Scanned(s, i, drop, r0, recs, rc0, records, after, rc, shrink)
    ensures s[i] in records && records[s[i]] == recs[s[i]]
  {
    DeleteAllStep(s[..i], s[i], drop, recs);
  }

  /** One more id scanned: deleted with its read flag counted when it is in
      `drop`, kept otherwise. */
  lemma ScannedStep(s: seq<Id>, i: int, drop: set<Id>, r0: int, recs: map<Id, Item>, rc0: int,
                    records: map<Id, Item>, after: seq<Id>, rc: int, shrink: int,
                    records': map<Id, Item>, after': seq<Id>, rc': int, shrink': int)
    requires 0 <= i < |s| && FirstAt(s, i) && s[i] in recs
    requires Scanned(s, i, drop, r0, recs, rc0, records, after, rc, shrink)
    requires records' == if s[i] in drop then records - {s[i]} else records
    requires after' == if s[i] in drop then after else after + [s[i]]
    requires rc' == if s[i] in drop && recs[s[i]].read then rc - 1 else rc
    requires shrink' == if s[i] in drop && !(0 <= r0 < i) then shrink + 1 else shrink
    ensures Scanned(s, i + 1, drop, r0, recs, rc0, records', after', rc', shrink')
  {
    var x := s[i];
    var pre := s[..i];
    assert s[..i + 1] == pre + [x];
    DeleteAllStep(pre, x, drop, recs);
    ShrinkStep(pre, x, r0, drop);
  }

  /** The loop of `deleteAllItemsOfFeed` over the timeline `s` with cursor
      `r0` and read count `rc0`: it deletes the ids in `drop` from the
      store and returns the surviving ids, the new read count and how far
      the cursor moves back. */
  method DeleteMarked(db: Store<Item>, s: seq<Id>, drop: set<Id>, r0: int, rc0: int)
    returns (after: seq<Id>, rc: int, shrink: int)
    requires db.Valid() && ItemIndex(db)
    requires forall i :: 0 <= i < |s| ==> s[i] in db.records
    requires forall i :: 0 <= i < |s| ==> FirstAt(s, i)
    modifies db
    ensures db.Valid() && ItemIndex(db)
    ensures Scanned(s, |s|, drop, r0, old(db.records), rc0, db.records, after, rc, shrink)
  {
    ghost var recs := db.records;
    after := [];
    var aboveReading := false;
    shrink := 0;
    rc := rc0;
    var i := 0;
    while i < |s|
      invariant 0 <= i <= |s|
      invariant db.Valid() && ItemIndex(db)
      invariant aboveReading <==> 0 <= r0 < i
      invariant Scanned(s, i, drop, r0, recs, rc0, db.records, after, rc, shrink)
    {
      var id := s[i];
      ScannedNext(s, i, drop, r0, recs, rc0, db.records, after, rc, shrink);
      ghost var records0, after0, rc1, shrink0 := db.records, after, rc, shrink;
      if id in drop {
        var wasRead := TakeOut(db, id);
        if wasRead {
          rc := rc - 1;
        }
        if !aboveReading {
          shrink := shrink + 1;
        }
      } else {
        after := after + [id];
      }
      if i == r0 {
        aboveReading := true;
      }
      ScannedStep(s, i, drop, r0, recs, rc0, records0, after0, rc1, shrink0, db.records, after, rc, shrink);
      i := i + 1;
    }
  }

  /** The store half of `updateReadCount`: an unread item is `put` back
      with its flag set, which its own URL cannot make fail. */
  method MarkRead(db: Store<Item>, id: Id)
    requires db.Valid() && ItemIndex(db) && id in db.records
    modifies db
    ensures db.Valid() && ItemIndex(db)
    ensures db.records == old(db.records)[id := old(db.records)[id].(read := true)]
  {
    var item := db.records[id];
    if !item.read {
      UrlIndexPut(db.records, db.urls, id, item.(read := true));
      var ok := db.Put(id, item.(read := true), item.url);
      assert ok;
    } else {
      assert db.records[id := item.(read := true)] == db.records;
    }
  }

  /** The per-feed sets `load` leaves, seen from the ascending timeline. */
  lemma LoadSets(itemSet: map<Id, set<Id>>, buffer: seq<Id>, recs: map<Id, Item>, records: map<Id, Item>)
    requires forall x :: x in records <==> x in recs && x in Reverse(buffer)
    requires forall x :: x in records ==> records[x] == recs[x]
    ensures forall f :: SetOf(AddedAll(itemSet, buffer, recs), f) == SetOf(itemSet, f) + FeedMembers(Reverse(buffer), recs, f)
    ensures itemSet == map[] ==> IndexedOn(AddedAll(itemSet, buffer, recs), records)
  {
    ReverseHas(buffer);
    AddedAllSpec(itemSet, buffer, recs);
    forall f ensures FeedMembers(buffer, recs, f) == FeedMembers(Reverse(buffer), recs, f) {
    }
  }

  /** The timeline `load` builds: the kept ids reversed into ascending
      order over the store without the expired ids, with the cursor on the
      oldest unread item. */
  lemma LoadOn(recs: map<Id, Item>, top: int, now: int, maxKeptPeriod: int, maxKeptItems: int,
               buffer: seq<Id>, perFeed: map<Id, int>, expired: seq<Id>, rc: int, unread: int,
               records: map<Id, Item>)
    requires forall x :: x in recs ==> x < top
    requires LoadScanned(recs, 0, top, now, maxKeptPeriod, maxKeptItems, buffer, perFeed, expired, rc, unread)
    requires records == RemoveKeys(recs, expired)
    ensures forall x :: x in records <==> x in recs && x in Reverse(buffer)
    ensures forall x :: x in records ==> records[x] == recs[x]
    ensures var r := if unread == 0 then |buffer| - 1 else |buffer| - unread;
      && r == LoadCursor(Reverse(buffer), recs)
      && TimelineOn(Reverse(buffer), records, rc, r)
  {
    LoadScanShape(recs, top, now, maxKeptPeriod, maxKeptItems, buffer, perFeed, expired, rc, unread);
    LoadKeys(recs, top, buffer, expired, records);
    ReverseAscending(buffer);
    LoadCount(recs, buffer, records);
    LoadCursorFromBuffer(buffer, recs);
    var items := Reverse(buffer);
    forall x ensures x in records <==> x in items {
      ReverseHas(buffer);
    }
    TimelineIntro(items, records, rc, if unread == 0 then |buffer| - 1 else |buffer| - unread);
  }

  /** The conjuncts of `TimelineOn`, one by one. */
  lemma TimelineIntro(items: seq<Id>, recs: map<Id, Item>, readCount: int, reading: int)
    requires Ascending(items) && (forall k :: k in recs <==> k in items)
    requires readCount == CountRead(items, recs) && reading < |items|
    ensures TimelineOn(items, recs, readCount, reading)
  {
  }

  /** The shape of a finished scan: kept ids descend, are stored, and every
      stored key in range is kept or expired but not both. */
  lemma LoadScanShape(recs: map<Id, Item>, top: int, now: int, maxKeptPeriod: int, maxKeptItems: int,
                      buffer: seq<Id>, perFeed: map<Id, int>, expired: seq<Id>, rc: int, unread: int)
    requires LoadScanned(recs, 0, top, now, maxKeptPeriod, maxKeptItems, buffer, perFeed, expired, rc, unread)
    ensures forall i, j :: 0 <= i < j < |buffer| ==> buffer[i] > buffer[j]
    ensures forall i :: 0 <= i < |buffer| ==> buffer[i] in recs
    ensures forall x :: x in recs && 1 <= x < top ==> (x in buffer <==> x !in expired)
    ensures rc == CountRead(buffer, recs) && unread == LastUnread(buffer, recs)
  {
    ScanShape(recs, 1, top, now, maxKeptPeriod, maxKeptItems);
  }

  /** The store after `load` holds exactly the kept ids, unchanged. */
  lemma LoadKeys(recs: map<Id, Item>, top: int, buffer: seq<Id>, expired: seq<Id>, records: map<Id, Item>)
    requires forall x :: x in recs ==> x < top
    requires forall x :: x in recs && 1 <= x < top ==> (x in buffer <==> x !in expired)
    requires forall i :: 0 <= i < |buffer| ==> buffer[i] in recs
    requires records == RemoveKeys(recs, expired)
    ensures forall x :: x in records <==> x in recs && x in Reverse(buffer)
    ensures forall x :: x in records ==> records[x] == recs[x]
  {
    RemoveKeysSpec(recs, expired);
    ReverseHas(buffer);
  }

  /** Reversing a strictly descending buffer gives an ascending timeline. */
  lemma ReverseAscending(buffer: seq<Id>)
    requires forall i, j :: 0 <= i < j < |buffer| ==> buffer[i] > buffer[j]
    ensures Ascending(Reverse(buffer))
  {
    var items := Reverse(buffer);
    forall i, j | 0 <= i < j < |items| ensures items[i] < items[j] {
      assert items[i] == buffer[|buffer| - 1 - i] && items[j] == buffer[|buffer| - 1 - j];
    }
  }

  /** The read count of the buffer is that of the timeline over the store
      that `load` leaves. */
  lemma LoadCount(recs: map<Id, Item>, buffer: seq<Id>, records: map<Id, Item>)
    requires forall x :: x in records <==> x in recs && x in Reverse(buffer)
    requires forall x :: x in records ==> records[x] == recs[x]
    ensures CountRead(Reverse(buffer), records) == CountRead(buffer, recs)
  {
    ReverseHas(buffer);
    CountReadReverse(buffer, recs);
    CountReadFrame(Reverse(buffer), recs, records);
  }

  /** `load`'s cursor scan over the item store, highest key first (an
      IndexedDB cursor opened with direction "prev"): each item that is
      young enough and whose feed has fewer than `maxKeptItems` kept items
      so far is kept, counted and added to its feed's set; every other item
      is listed as expired. Keys the store does not hold are skipped, as the
      cursor never visits them. */
  method ScanStore(db: Store<Item>, reg: Registry, now: int, maxKeptPeriod: int, maxKeptItems: int)
    returns (buffer: seq<Id>, perFeedCounter: map<Id, int>, expired: seq<Id>, rc: int, unread: int)
    modifies reg
    ensures LoadScanned(db.records, 0, db.nextKey, now, maxKeptPeriod, maxKeptItems,
                        buffer, perFeedCounter, expired, rc, unread)
    ensures reg.itemSet == AddedAll(old(reg.itemSet), buffer, db.records) && reg.feeds == old(reg.feeds)
  {
    buffer, perFeedCounter, expired := [], map[], [];
    rc, unread := 0, 0;
    var counter := 0;
    var k := db.nextKey - 1;
    while k >= 1
      invariant 0 <= k < db.nextKey
      invariant LoadScanned(db.records, k, db.nextKey, now, maxKeptPeriod, maxKeptItems,
                            buffer, perFeedCounter, expired, rc, unread)
      invariant counter == |buffer|
      invariant reg.itemSet == AddedAll(old(reg.itemSet), buffer, db.records) && reg.feeds == old(reg.feeds)
    {
      ghost var buffer0, perFeed0, expired0, rc0, unread0 := buffer, perFeedCounter, expired, rc, unread;
      if k in db.records {
        var item := db.records[k];
        var feedId := item.feedId;
        var thisCount := 0;
        if feedId in perFeedCounter {
          thisCount := perFeedCounter[feedId];
        }
        if Young(item, now, maxKeptPeriod) && thisCount < maxKeptItems {
          assert AddedAll(old(reg.itemSet), buffer + [k], db.records)
              == reg.itemSet[feedId := SetOf(reg.itemSet, feedId) + {k}] by {
            assert (buffer + [k])[..|buffer|] == buffer;
          }
          buffer := buffer + [k];
          counter := counter + 1;
          perFeedCounter := perFeedCounter[feedId := thisCount + 1];
          reg.AddItem(feedId, k);
          if item.read {
            rc := rc + 1;
          } else {
            unread := counter;
          }
        } else {
          expired := expired + [k];
        }
      }
      LoadScannedStep(db.records, k, db.nextKey, now, maxKeptPeriod, maxKeptItems,
                      buffer0, perFeed0, expired0, rc0, unread0, buffer, perFeedCounter, expired, rc, unread);
      k := k - 1;
    }
  }

  /** `load`'s second loop: delete every expired id, in order. */
  method DeleteExpired(db: Store<Item>, expired: seq<Id>)
    requires db.Valid() && ItemIndex(db)
    modifies db
    ensures db.Valid() && ItemIndex(db)
    ensures db.records == RemoveKeys(old(db.records), expired)
    ensures db.nextKey == old(db.nextKey)
  {
    var i := 0;
    while i < |expired|
      invariant 0 <= i <= |expired|
      invariant db.Valid() && ItemIndex(db) && db.nextKey == old(db.nextKey)
      invariant db.records == RemoveKeys(old(db.records), expired[..i])
    {
      UrlIndexDelete(db.records, db.urls, expired[i]);
      db.Delete(expired[i]);
      assert expired[..i + 1][..i] == expired[..i];
      i := i + 1;
    }
    assert expired[..|expired|] == expired;
  }

  /** `db.get` then `db.delete` of a stored item: its read flag. */
  method TakeOut(db: Store<Item>, id: Id) returns (wasRead: bool)
    requires db.Valid() && ItemIndex(db) && id in db.records
    modifies db
    ensures db.Valid() && ItemIndex(db)
    ensures wasRead == old(db.records)[id].read
    ensures db.records == old(db.records) - {id}
  {
    wasRead := db.records[id].read;
    db.Delete(id);
  }

  /** How `Shrink` grows by one more scanned id. */
  lemma ShrinkStep(pre: seq<Id>, x: Id, r: int, drop: set<Id>)
    ensures Shrink(pre + [x], r, drop)
         == Shrink(pre, r, drop) + (if x in drop && !(0 <= r < |pre|) then 1 else 0)
  {
    var q := pre + [x];
    assert q[..|pre|] == pre;
    if 0 <= r < |pre| {
      assert q[..r + 1] == pre[..r + 1];
    } else if r == |pre| {
      assert q[..r + 1] == q;
    }
  }

  /** `s[i]` does not occur before index `i`. */
  predicate FirstAt(s: seq<Id>, i: int)
    requires 0 <= i < |s|
  {
    s[i] !in s[..i]
  }

  /** A timeline's ids are stored keys, none repeated. */
  lemma ElementsOn(s: seq<Id>, recs: map<Id, Item>, readCount: int, reading: int)
    requires TimelineOn(s, recs, readCount, reading)
    ensures forall i :: 0 <= i < |s| ==> s[i] in recs
    ensures forall i :: 0 <= i < |s| ==> FirstAt(s, i)
  {
    forall i | 0 <= i < |s| ensures s[i] !in s[..i] {
      forall j | 0 <= j < i ensures s[..i][j] != s[i] {
        assert s[j] < s[i];
      }
    }
  }

  lemma AscendingDistinct(s: seq<Id>)
    requires Ascending(s)
    ensures Distinct(s)
  {
  }
}
