/** The IndexedDB object stores behind the timeline and the feed registry,
    as the engine sees them: records under positive integer keys drawn from
    a key generator, and a unique index on the record's URL that makes `add`
    and `put` fail on a duplicate. The index is kept as the URL of each key;
    a write is given the URL its record yields (`url` for items, `feedUrl`
    for feeds), as IndexedDB reads the index's key path from the record.
    The promise wrappers of public/index_db.js are not part of this model. */
module ObjectStore {
  import opened Wrappers
  import opened Records

  class Store<R> {
    var records: map<Id, R>
    /** The unique URL index: the URL of each stored record. */
    var urls: map<Id, string>
    /** The key generator's next value. */
    var nextKey: Id

    constructor()
      ensures records == map[] && urls == map[] && nextKey == 1
    {
      records := map[];
      urls := map[];
      nextKey := 1;
    }

    /** Keys stay below the generator and the URL index is unique. */
    ghost predicate Valid()
      reads this
    {
      && records.Keys == urls.Keys
      && (forall k :: k in records ==> k < nextKey)
      && (forall k1, k2 :: k1 in urls && k2 in urls && urls[k1] == urls[k2] ==> k1 == k2)
    }

    predicate HasUrl(u: string)
      reads this
    {
      exists k :: k in urls && urls[k] == u
    }

    /** `add`: a new record under `key`, or under a generated key when
        `key` is `None`. It fails when the URL or the key is taken, and
        then nothing changes. */
    method Add(r: R, url: string, key: Option<Id>) returns (k: Option<Id>)
      requires Valid()
      modifies this
      ensures Valid()
      ensures k.None? <==> old(HasUrl(url)) || (key.Some? && key.value in old(records))
      ensures k.Some? ==>
        && k.value !in old(records)
        && records == old(records)[k.value := r]
        && urls == old(urls)[k.value := url]
        && (key.Some? ==> k == key)
        && (key.None? ==> k.value == old(nextKey))
        && old(nextKey) <= nextKey
      ensures k.None? ==> records == old(records) && urls == old(urls) && nextKey == old(nextKey)
    {
      if HasUrl(url) || (key.Some? && key.value in records) {
        return None;
      }
      var id := if key.Some? then key.value else nextKey;
      records := records[id := r];
      urls := urls[id := url];
      if id >= nextKey {
        nextKey := id + 1;
      }
      k := Some(id);
    }

    /** `put`: insert or overwrite the record under `k`; it fails when
        another key holds the same URL. */
    method Put(k: Id, r: R, url: string) returns (ok: bool)
      requires Valid()
      modifies this
      ensures Valid()
      ensures ok <==> forall j :: j in old(urls) && j != k ==> old(urls)[j] != url
      ensures ok ==> records == old(records)[k := r] && urls == old(urls)[k := url] && old(nextKey) <= nextKey
      ensures !ok ==> records == old(records) && urls == old(urls) && nextKey == old(nextKey)
    {
      ok := !exists j :: j in urls && j != k && urls[j] == url;
      if ok {
        records := records[k := r];
        urls := urls[k := url];
        if k >= nextKey {
          nextKey := k + 1;
        }
      }
    }

    /** `delete`: a missing key is not an error. */
    method Delete(k: Id)
      requires Valid()
      modifies this
      ensures Valid()
      ensures records == old(records) - {k} && urls == old(urls) - {k} && nextKey == old(nextKey)
    {
      records := records - {k};
      urls := urls - {k};
    }

    /** `get` on the URL index. */
    method FindByUrl(u: string) returns (k: Option<Id>)
      requires Valid()
      ensures k.Some? ==> k.value in records && urls[k.value] == u
      ensures k.None? <==> !HasUrl(u)
      ensures k.Some? ==> forall j :: j in urls && urls[j] == u ==> j == k.value
    {
      if HasUrl(u) {
        var j :| j in urls && urls[j] == u;
        k := Some(j);
      } else {
        k := None;
      }
    }
  }
}
