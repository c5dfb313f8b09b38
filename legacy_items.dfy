/** The older reading timeline of src/items.js. Next to the `reading`
    cursor it keeps `known`, the highest index the cursor has reached, and
    counts the unread items from it. The timeline holds what each push
    appended: the key a record was loaded under, or the pushed record's own
    `id`, which a record that is about to receive a generated key does not
    have (IndexedDB writes the generated key into the stored copy only). */
module LegacyItems {
  import opened Wrappers
  import opened Records
  import opened ObjectStore
  import opened ItemSpecs
  import opened Items
  import opened Loader

  /** The keys of `recs` below `top`, ascending: what an IndexedDB cursor
      over the whole store visits. */
  function KeysBelow(recs: map<Id, Item>, top: int): seq<Id>
    decreases top
  {
    if top <= 1 then [] else KeysBelow(recs, top - 1) + (if top - 1 in recs then [top - 1] else [])
  }

  /** The cursor visits every stored key below `top` once, in ascending
      order. */
  lemma {:induction false} KeysBelowSpec(recs: map<Id, Item>, top: int)
    decreases top
    ensures forall x :: x in KeysBelow(recs, top) <==> x in recs && x < top
    ensures forall i, j :: 0 <= i < j < |KeysBelow(recs, top)| ==> KeysBelow(recs, top)[i] < KeysBelow(recs, top)[j]
  {
    if top > 1 {
      KeysBelowSpec(recs, top - 1);
      var init := KeysBelow(recs, top - 1);
      if top - 1 in recs {
        assert KeysBelow(recs, top) == init + [top - 1];
        forall i | 0 <= i < |init| ensures init[i] < top - 1 {
          assert init[i] in init;
        }
      }
    }
  }

  /** Every key of `s`, as a present key. */
  function Present(s: seq<Id>): (r: seq<Option<Id>>)
    ensures |r| == |s| && forall i :: 0 <= i < |s| ==> r[i] == Some(s[i])
  {
    if s == [] then [] else Present(s[..|s| - 1]) + [Some(s[|s| - 1])]
  }

  /** What `getCurrentItem` (`db.get` on the key at the cursor) gives: the
      record, nothing for a key that is not stored, or an IndexedDB
      `DataError` for a cursor off the timeline or an undefined key. */
  datatype Lookup = Found(item: Item) | Absent | BadKey

  /** The object parseJSONItem builds holds this body: `content_html`, else
      `content_text` wrapped in `<pre>`; without either it throws. */
  function BuiltContent(json: JsonItemDoc): (c: Option<string>)
    ensures c.None? <==> json.contentHtml.None? && json.contentText.None?
    ensures json.contentHtml.Some? ==> c == json.contentHtml
    ensures json.contentHtml.None? && json.contentText.Some? ==> c == Some("<pre>" + json.contentText.value + "</pre>")
  {
    if json.contentHtml.Some? then json.contentHtml
    else if json.contentText.Some? then Some("<pre>" + json.contentText.value + "</pre>")
    else None
  }

  /** How parseJSONItem ends: it throws `"Malformed JSON"`, or it falls off
      its end and returns `undefined`. */
  datatype ParseEnd = Malformed | ReturnsUndefined

  /** parseJSONItem: the item it builds is never returned. */
  function ParseJSONItem(json: JsonItemDoc): (r: ParseEnd)
    ensures r == Malformed <==> BuiltContent(json).None?
    ensures r != Malformed ==> r == ReturnsUndefined
  {
    if BuiltContent(json).None? then Malformed else ReturnsUndefined
  }

  class LegacyTimeline {
    var items: seq<Option<Id>>
    var reading: int
    /** The highest index the cursor has reached; at load time the number
        of read items less one. */
    var known: int

    constructor()
      ensures items == [] && reading == -1 && known == -1
    {
      items := [];
      reading := -1;
      known := -1;
    }

    /** The cursor is at most `known`, and `known` is below the length;
        both are at least -1. */
    predicate Valid()
      reads this
    {
      -1 <= reading <= known < |items|
    }

    /** unreadCount: everything past `known`. */
    function UnreadCount(): int
      reads this
    {
      |items| - known - 1
    }

    /** The unread count is never negative, and it is the whole timeline
        when nothing is known. */
    lemma UnreadCountBounds()
      requires Valid()
      ensures 0 <= UnreadCount() <= |items|
      ensures known == -1 ==> UnreadCount() == |items|
    {
    }

    /** forwardCursor: fails at the last item; otherwise steps forward and
        raises `known` to the cursor. */
    method ForwardCursor() returns (moved: bool)
      modifies this
      ensures items == old(items)
      ensures moved <==> old(reading) < |items| - 1
      ensures reading == if moved then old(reading) + 1 else old(reading)
      ensures known == if moved && old(known) < reading then reading else old(known)
      ensures old(known) <= known && (moved ==> reading <= known)
      ensures old(Valid()) ==> Valid()
    {
      if reading >= |items| - 1 {
        return false;
      }
      reading := reading + 1;
      if known < reading {
        known := reading;
      }
      moved := true;
    }

    /** backwardCursor, as written: `false` at the first item, otherwise a
        step back and no return value (`undefined`, here `None`). */
    method BackwardCursor() returns (r: Option<bool>)
      modifies this
      ensures items == old(items) && known == old(known)
      ensures old(reading) <= 0 ==> r == Some(false) && reading == old(reading)
      ensures old(reading) > 0 ==> r == None && reading == old(reading) - 1
      ensures old(Valid()) ==> Valid()
    {
      if reading <= 0 {
        return Some(false);
      }
      reading := reading - 1;
      r := None;
    }

    /** backwardCursor as evidently intended: `true` after a step back. */
    method BackwardCursorFixed() returns (moved: bool)
      modifies this
      ensures items == old(items) && known == old(known)
      ensures moved <==> old(reading) > 0
      ensures reading == if moved then old(reading) - 1 else old(reading)
      ensures old(Valid()) ==> Valid()
    {
      var r := BackwardCursor();
      moved := r.None?;
    }

    /** load: every stored key in ascending order; `known` and the cursor on
        the number of read records less one, wherever they are. */
    method Load(db: Store<Item>)
      requires db.Valid()
      modifies this
      ensures items == Present(KeysBelow(db.records, db.nextKey))
      ensures known == CountRead(KeysBelow(db.records, db.nextKey), db.records) - 1
      ensures reading == known
      ensures Valid()
    {
      items := [];
      known := -1;
      var k := 1;
      while k < db.nextKey
        invariant 1 <= k <= db.nextKey
        invariant items == Present(KeysBelow(db.records, k))
        invariant known == CountRead(KeysBelow(db.records, k), db.records) - 1
      {
        ghost var s := KeysBelow(db.records, k);
        if k in db.records {
          if db.records[k].read {
            known := known + 1;
          }
          items := items + [Some(k)];
          assert KeysBelow(db.records, k + 1) == s + [k];
          assert (s + [k])[..|s|] == s;
        } else {
          assert KeysBelow(db.records, k + 1) == s;
        }
        k := k + 1;
      }
      reading := known;
      CountReadBound(KeysBelow(db.records, db.nextKey), db.records);
    }

    /** getCurrentItem. */
    function CurrentItem(db: Store<Item>): (r: Lookup)
      reads this, db
      ensures r == BadKey <==> !(0 <= reading < |items|) || items[reading].None?
      ensures r.Found? ==> items[reading].value in db.records && r.item == db.records[items[reading].value]
      ensures r == Absent ==> items[reading].value !in db.records
    {
      if !(0 <= reading < |items|) || items[reading].None? then BadKey
      else if items[reading].value in db.records then Found(db.records[items[reading].value])
      else Absent
    }

    /** pushItem: `put` the record under `key` (its `id`), or under a
        generated key when it has none; a URL conflict throws before the
        timeline changes, otherwise `key` itself is appended. */
    method PushItem(db: Store<Item>, item: Item, key: Option<Id>) returns (ok: bool)
      requires db.Valid() && ItemIndex(db)
      modifies this, db
      ensures db.Valid() && ItemIndex(db)
      ensures reading == old(reading) && known == old(known)
      ensures ok ==> items == old(items) + [key]
      ensures !ok ==> items == old(items) && db.records == old(db.records)
      ensures key.None? ==> (ok <==> !old(db.HasUrl(item.url)))
      ensures ok && key.None? ==> old(db.nextKey) !in old(db.records) && db.records == old(db.records)[old(db.nextKey) := item]
      ensures key.Some? ==> (ok <==> forall j :: j in old(db.urls) && j != key.value ==> old(db.urls)[j] != item.url)
      ensures ok && key.Some? ==> db.records == old(db.records)[key.value := item]
      ensures old(Valid()) ==> Valid()
    {
      if key.Some? {
        UrlIndexPut(db.records, db.urls, key.value, item);
        ok := db.Put(key.value, item, item.url);
      } else {
        UrlIndexPut(db.records, db.urls, db.nextKey, item);
        var k := db.Add(item, item.url, None);
        ok := k.Some?;
      }
      if ok {
        items := items + [key];
      }
    }
  }

  /** markRead: a read item is left alone; otherwise its flag is set and
      it is `put` back under its key. The returned item is read, so marking
      it again writes nothing. */
  method MarkRead(db: Store<Item>, key: Id, item: Item) returns (marked: Item, wrote: bool)
    requires db.Valid() && ItemIndex(db)
    modifies db
    ensures db.Valid() && ItemIndex(db)
    ensures marked == item.(read := true)
    ensures item.read ==> !wrote && db.records == old(db.records)
    ensures !item.read ==> (wrote <==> forall j :: j in old(db.urls) && j != key ==> old(db.urls)[j] != item.url)
    ensures wrote ==> db.records == old(db.records)[key := marked]
    ensures !wrote ==> db.records == old(db.records)
  {
    marked := item.(read := true);
    if item.read {
      return marked, false;
    }
    UrlIndexPut(db.records, db.urls, key, marked);
    wrote := db.Put(key, marked, marked.url);
  }
}
