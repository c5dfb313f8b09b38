/** The two record shapes kept in the persistent store (items and feeds) and
    the shape of an item as the feed normaliser produces it. Dates are
    milliseconds since the epoch; `None` stands for a JavaScript `Date` that
    is invalid or absent, with which every comparison is false. */
module Records {
  import opened Wrappers

  /** Store keys: the store's key generator starts at 1, so a key is never
      the falsy value 0. */
  type Id = k: int | k >= 1 witness 1

  /** One day in milliseconds (`24*3600*1000` in the source). */
  const DayMs: int := 24 * 3600 * 1000

  /** One hour in milliseconds (`3600*1000` in the source). */
  const HourMs: int := 3600 * 1000

  /** A stored item: the JSON Feed item shape plus the owning feed and the
      `read` flag (absent in a fresh record, hence `false`). */
  datatype Item = Item(
    feedId: Id,
    feedTitle: Option<string>,
    url: string,
    title: Option<string>,
    contentHtml: string,
    imageUrl: Option<string>,
    tags: seq<string>,
    datePublished: Option<int>,
    read: bool)

  /** A subscription. `id` is absent until the store assigns one;
      `lastFetchTime` may be missing in old records, and is 0 in one that
      was subscribed but never fetched; `error` is the
      transient failure text attached by the loader. */
  datatype Feed = Feed(
    id: Option<Id>,
    feedUrl: string,
    title: Option<string>,
    homePageUrl: Option<string>,
    lastLoadTime: int,
    lastFetchTime: Option<int>,
    error: Option<string>)

  /** An item as the feed normaliser produces it, before the merge stamps
      it with its feed's id and stores it. */
  datatype Entry = Entry(
    url: string,
    title: Option<string>,
    contentHtml: string,
    imageUrl: Option<string>,
    tags: seq<string>,
    datePublished: Option<int>,
    feedTitle: Option<string>,
    feedId: Option<Id>)

  /** A numeric setting read as `parseInt(localStorage.getItem(key)) ||
      fallback`: `parsed` is what `parseInt` gave (`None` for `NaN`), and a
      falsy result, `NaN` or 0, gives the fallback. */
  function ParsedOr(parsed: Option<int>, fallback: int): (v: int)
    ensures parsed.Some? && parsed.value != 0 ==> v == parsed.value
    ensures parsed.None? || parsed.value == 0 ==> v == fallback
    ensures fallback != 0 ==> v != 0
  {
    if parsed.Some? && parsed.value != 0 then parsed.value else fallback
  }

  /** JavaScript truthiness of a stored time: present and not the number
      0 that a fresh subscription records (a `Date` at the epoch itself is
      not told apart from it). */
  predicate TimeTruthy(t: Option<int>) {
    t.Some? && t.value != 0
  }

  /** JavaScript truthiness of an optional string: present and non-empty. */
  predicate Truthy(s: Option<string>) {
    s.Some? && s.value != ""
  }
}
