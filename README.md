# airss: the reading timeline, the feed rotation and the feed normaliser

airss is a browser feed reader. It keeps feeds and items in IndexedDB and
keeps a *timeline* in memory: an ascending array of item ids with a
`reading` cursor and a count of read items. It also keeps a *rotation* of
feed ids, whose head is the next feed to fetch, and a map from each feed to
the ids of its items. On demand, a *gate* decides whether to fetch the head
feed: there must be no load in flight, few enough unread items, and a long
enough wait since the feed was last loaded. The *merge* then pushes the
fetched entries into the timeline, skips URLs already stored, and may add a
placeholder item for a failed or silent feed. Before an entry reaches the
merge, the *normaliser* picks its fields from a JSON Feed, RSS 2.0 or Atom
document and filters by age. The *sanitiser* passes item HTML through an
allow-list of tags and attributes.

The repository holds two snapshots of this engine: `public/` (current) and
`src/` (an older rewrite). Both are modelled, each against its own code.

| Dafny file | module | models |
|---|---|---|
| wrappers.dfy | Wrappers | `null`/`undefined` as `Option` |
| records.dfy | Records | item, feed and parsed-entry records; `parseInt(..) \|\| default`; truthiness |
| seqs.dfy | Seqs | filter, rotation and reversal of sequences |
| store.dfy | ObjectStore | an IndexedDB object store: a key generator and a unique URL index |
| items.dfy, item_specs.dfy | Items, ItemSpecs | public/items.js |
| feeds.dfy | Feeds | public/feeds.js |
| model.dfy | AirssModel | public/airss_model.js |
| loader.dfy | Loader | public/loader.js, and the MIME tables and feed parsers of src/loader.js, which are the same |
| sanitizer.dfy | Sanitizer | public/sanitizer.js |
| legacy_items.dfy | LegacyItems | src/items.js |
| legacy_feeds.dfy | LegacyFeeds | src/feeds.js |
| legacy_model.dfy | LegacyModel | src/airss_model.js |
| legacy_loader.dfy | LegacyLoader | src/loader.js |

Modules that mutate state in place are modelled as classes with
`modifies` clauses:
- The timeline (`Items.Timeline`, `LegacyItems.LegacyTimeline`).
- The registry (`Feeds.Registry`, `LegacyFeeds.LegacyRegistry`).
- The engines (`AirssModel.Engine`, `LegacyModel.LegacyEngine`).
- The store (`ObjectStore.Store`).

The loops of the source stay loops: `load`, `deleteAllItemsOfFeed`,
`allUrlsOfFeed`, the push loop of the merge and `processItems`. Each method
is proved against a specification function, such as `ScanFrom` for the
retention scan, `Accepted` for the entries a merge stores, `Admitted` and
`Taken` for `processItems`, and `CursorAfterDelete` for the cursor after a
feed's items are deleted. Lemmas prove what the source promises of those
functions.

Host inputs are parameters:
- The clock (`now`, milliseconds).
- The settings read from `localStorage`.
- The `Math.random` placeholder URL and the printed date of the quiet
  placeholder.
- `new Date(text)` and `new URL(text)` (`Loader.Host`).
- The order an IndexedDB index cursor visits records in.
- The HTML parser.

### Where the code differs from its description

The model follows the code:
- `get` in public/feeds.js:63-69 patches a *falsy* `lastFetchTime`. That
  covers a missing one and also the 0 that a fresh subscription stores
  (public/loader.js:359-360).
- In src/airss_model.js:365-379, `cb_getLoadCandidate` pops the head for
  good (src/feeds.js:35-41) and then calls `Feeds.rotate`, which
  src/feeds.js:13 does not export. Every head that passes the gate
  therefore ends in a `TypeError`, and the function never returns a
  candidate (`LegacyModel.LegacyEngine.GetLoadCandidate`).
- `cb_addItems` (src/airss_model.js:245-266) and `cb_deleteItem`
  (src/airss_model.js:176-185) call `Items.addItem` and
  `Items.deleteCurrentItem`, which src/items.js does not define. They throw
  before any change, except `cb_addItems` on an empty batch.
- In src/airss_model.js:361, the write-back of a *new* feed hands `put` the
  caller's feed, which still has no id. Its URL is already held by the
  record the merge added, so the write always fails, unobserved
  (`LegacyFeeds.NewFeedPutFails`).
- `parseJSONItem` in src/items.js:32-46 builds an item and never returns it.
- public/items.js calls `db.get(Store, key)`, `db.add`, `db.put` and
  `db.delete` in the style of the `idb` library. The `openDB` of
  public/index_db.js:1-14 returns a plain `IDBDatabase`, and
  public/feeds.js uses the request wrappers of public/index_db.js. Both are
  modelled over the same abstract store, with the semantics the calls
  evidently intend.

## Model

| member | source | states |
|---|---|---|
| Records.ParsedOr | public/airss_model.js:30-32 | a setting is the parsed number unless `parseInt` gave `NaN` or 0, which give the default; a non-zero default never yields 0 |
| Seqs.RemovedSplit | public/feeds.js:101-104 | filtering out a set of ids keeps exactly the elements outside it, and the kept and removed parts add up to the whole |
| Seqs.RemovedAppend | public/items.js:91-107 | the filter distributes over concatenation, so kept elements keep their relative order |
| Seqs.RemovedDistinct | public/feeds.js:101-104 | filtering a duplicate-free sequence leaves it duplicate-free |
| Seqs.RemovedNothing | public/items.js:91-107 | when no element is in the set, filtering changes nothing |
| Seqs.RemoveKeysSpec | public/items.js:192-195 | deleting the expired keys one by one leaves exactly the other records, unchanged |
| Seqs.RotatedPermutation | public/feeds.js:50-52 | `rotate` is a permutation of the same length: the tail keeps its order and the head goes last |
| Seqs.RotatedTimesSplit | public/feeds.js:50-52 | `n` rotations move the first `n` feeds to the back, in order |
| Seqs.FullRotation | public/feeds.js:50-52 | as many rotations as feeds give the rotation back, so every feed comes round once |
| Seqs.ReverseHas | public/items.js:196 | reversing the descending scan buffer keeps its ids |
| Seqs.Reverse | public/items.js:196 | the reversed buffer has the same length, element `i` taken from the mirrored position |
| ObjectStore.Store.constructor | public/items.js:140-145 | a new store is empty, with the key generator at 1 |
| ObjectStore.Store.Add | public/index_db.js:98-109 | `add` fails, changing nothing, iff the URL is in the unique index or the given key is taken; otherwise the record is stored under the given key or the generated one |
| ObjectStore.Store.Put | public/index_db.js:111-122 | `put` fails iff another key holds the URL; otherwise it inserts or overwrites the record under its key |
| ObjectStore.Store.Delete | public/index_db.js:124-135 | `delete` removes the key, and a missing key is not an error |
| ObjectStore.Store.FindByUrl | public/index_db.js:84-96 | a lookup on the unique index returns the one key holding the URL, or nothing iff no record has it |
| ItemSpecs.IsDummyItem | public/items.js:147-150 | an item is a placeholder iff its tag list is exactly `["_error"]` |
| ItemSpecs.CountReadAppend | public/items.js:24-26 | the read count of a timeline grows by one exactly when the appended id is a read item |
| ItemSpecs.CountReadBound | public/items.js:24-26 | the read count is at most the length, so `unreadCount` is never negative |
| ItemSpecs.CountReadSplit | public/items.js:70-84 | removing one id lowers the read count by one iff that item was read |
| ItemSpecs.CountReadMark | public/items.js:28-37 | setting an item's flag raises the read count by one iff it was unread |
| ItemSpecs.CountReadDelete | public/items.js:91-103 | deleting a feed's ids lowers the read count by the read items among them |
| ItemSpecs.CountReadReverse | public/items.js:196 | reversing the buffer keeps its read count |
| ItemSpecs.CursorAfterDeleteBound | public/items.js:86-112 | after `deleteAllItemsOfFeed` the cursor is below the new length and at least -1 |
| ItemSpecs.CursorFollowsSurvivor | public/items.js:86-112 | when the current item survives, the cursor stays on that same item |
| ItemSpecs.CursorLostExample | public/items.js:86-112 | timeline `[1, 2]`, cursor 0, deleting item 1 leaves `[2]` with the cursor at -1 |
| ItemSpecs.ClampedCursorOk | public/items.js:86-112 | the corrected cursor is -1 iff no item remains, and otherwise indexes an item |
| ItemSpecs.LastUnreadSpec | public/items.js:183-201 | the scan's unread marker points just past the last unread id of the buffer, and all ids after it are read |
| ItemSpecs.FirstUnreadSpec | public/items.js:196-201 | the landing index is the first unread id of the timeline, with every earlier id read |
| ItemSpecs.LoadCursorFromBuffer | public/items.js:196-201 | the cursor `load` computes over the descending buffer is the oldest unread item of the ascending timeline, or `length-1` when every item is read |
| ItemSpecs.RetentionRule | public/items.js:169-190 | an item survives `load` iff it is younger than the period (strictly) and fewer than `maxKeptItems` newer items of its feed survive |
| ItemSpecs.PerFeedCap | public/items.js:169-190 | no feed keeps more than `maxKeptItems` items after `load` |
| ItemSpecs.KeptExtends | public/items.js:169-190 | scanning further down only appends lower ids to the kept list |
| ItemSpecs.ScanShape | public/items.js:169-190 | the kept ids descend, are stored, and every stored key is kept or expired, never both |
| ItemSpecs.ScanCount | public/items.js:169-190 | the per-feed counters equal the number of kept items of each feed |
| ItemSpecs.LoadRetention | public/items.js:169-197 | the retention rule and the per-feed cap, stated on the ascending timeline `load` builds |
| ItemSpecs.CountFeedAboveReverse | public/items.js:196 | a feed's kept count above an id does not depend on the buffer's direction |
| ItemSpecs.RemovedAscending | public/items.js:86-112 | filtering keeps the timeline ascending |
| ItemSpecs.CountReadUnread | public/items.js:24-26 | every timeline id is either read or unread |
| Items.Timeline.constructor | public/items.js:156-164 | a fresh timeline is empty, with the cursor at -1 and no read item |
| Items.Timeline.UnreadCountMeaning | public/items.js:24-26 | `unreadCount` is the number of unread timeline items, between 0 and the length |
| Items.Timeline.IsCurrentItem | public/items.js:152-154 | an id is current iff the cursor is on the timeline and points at it; an ascending timeline has it at no other index |
| Items.Timeline.UpdateReadCount | public/items.js:28-37 | with a non-negative cursor the current item gets its flag set in the store, and the count rises iff it was unread; otherwise nothing changes |
| Items.Timeline.Forward | public/items.js:39-45 | marks the current item read even when the move fails; it fails with the cursor unchanged at the last index, else adds exactly 1 |
| Items.Timeline.Backward | public/items.js:47-53 | marks the current item read even when the move fails; it fails with the cursor unchanged at index 0 or below, else subtracts exactly 1 |
| Items.Timeline.DeleteCurrentItem | public/items.js:70-84 | with a negative cursor it returns false and changes nothing; otherwise the current id leaves the timeline, the store and its feed's set, the others keep their order, the count drops iff the item was read, and the cursor drops only from the last index |
| Items.Timeline.DeleteAllItemsOfFeed | public/items.js:86-112 | the timeline is filtered by the feed's set, in order; those records leave the store; the count drops by the removed read items; the cursor drops by the removed ids at or before it, then once more at the new length |
| Items.Timeline.DeleteAllItemsOfFeedClamped | public/items.js:86-112 | as written, except that a cursor left at -1 while items remain moves onto the first item, keeping the cursor invariant |
| Items.Timeline.Load | public/items.js:156-204 | the timeline is the reversed retention scan; the store keeps exactly the retained records; every feed's set gains its retained ids; the count is the retained read items; the cursor is on the oldest unread item |
| Items.Timeline.PushItem | public/items.js:125-134 | a URL conflict changes nothing; otherwise the new key is appended and joins its feed's set, and a negative cursor becomes 0 |
| Items.Timeline.AllUrlsOfFeed | public/items.js:114-123 | the URLs of the feed's stored non-placeholder items, one per item and without repeats |
| Items.DeleteMarked | public/items.js:91-107 | the deletion loop removes exactly the feed's ids from the store and returns the survivors, the new read count and the cursor shift |
| Items.MarkRead | public/items.js:30-35 | the stored item gets its `read` flag set; nothing else in the store changes |
| Items.ScanStore | public/items.js:169-190 | the descending cursor scan produces the buffer, counters and expired list that `ScanFrom` specifies |
| Items.DeleteExpired | public/items.js:192-195 | every expired key leaves the store |
| Items.AddedAllSpec | public/items.js:183 | each feed's set gains exactly the ids that `load` retained for it |
| Feeds.Registry.constructor | public/feeds.js:31-36 | an empty rotation and an empty item map |
| Feeds.Registry.Load | public/feeds.js:31-42 | every stored feed once, by ascending `lastLoadTime`, with an empty item map |
| Feeds.Registry.First | public/feeds.js:44-48 | the head of the rotation, or none on an empty one |
| Feeds.Registry.Rotate | public/feeds.js:50-52 | the rotation becomes tail ++ [head], a permutation, with the item map unchanged |
| Feeds.Registry.AllFeedUrls | public/feeds.js:54-61 | one URL per rotation entry, in rotation order; the `TypeError` (`None`) iff some rotation id has no stored record |
| Feeds.Registry.Get | public/feeds.js:63-69 | the stored feed with a missing or zero `lastFetchTime` replaced by `lastLoadTime`, and otherwise unchanged |
| Feeds.Registry.GetFeed | public/feeds.js:71-77 | the id of the feed stored under a URL, or none iff no feed has it |
| Feeds.Registry.AddFeed | public/feeds.js:79-90 | a preset id joins the rotation before the add, so it stays even when the add fails; a generated id joins only on success and is written into the record |
| Feeds.Registry.UpdateFeed | public/feeds.js:92-94 | `put` under the feed's id succeeds iff no other feed has its URL |
| Feeds.Registry.RemoveFeed | public/feeds.js:96-99 | the feed's item set is dropped, every occurrence of the id leaves the rotation, and the record leaves the store |
| Feeds.Registry.DeleteFeed | public/feeds.js:101-104 | every occurrence of the id leaves the rotation, the rest keep their order, and the record leaves the store |
| Feeds.Registry.ItemsOf | public/feeds.js:118-123 | an unknown feed has the empty set |
| Feeds.Registry.AddItem | public/feeds.js:106-111 | the feed's set gains the id and is created on first use; other feeds are untouched |
| Feeds.Registry.RemoveItem | public/feeds.js:113-116 | the feed's set loses the id; on an unknown feed it is a no-op |
| Feeds.RotatedDistinct | public/feeds.js:50-52 | a rotation keeps the rotation free of duplicates |
| AirssModel.Stamp | public/airss_model.js:253-255 | a pushed entry carries its feed's id, keeps its URL, tags and date, and is unread |
| AirssModel.AcceptedFrom | public/airss_model.js:251-264 | the merge stores only entries of the batch, at most the whole batch |
| AirssModel.AcceptedNew | public/airss_model.js:251-264 | the stored entries have URLs that were not stored before and are pairwise distinct |
| AirssModel.AcceptedCoversAt | public/airss_model.js:251-264 | every batch entry whose URL was not stored gets stored |
| AirssModel.OopsItem | public/airss_model.js:196-208 | the failure placeholder is a placeholder item of the feed, dated now, unread |
| AirssModel.QuietItem | public/airss_model.js:210-223 | the silence placeholder is a placeholder item of the feed, dated now, unread |
| AirssModel.PlaceholderFor | public/airss_model.js:267-281 | an error gets the failure placeholder; otherwise a merge that added nothing to a feed last fetched more than the period ago gets the silence placeholder; in every other case there is none |
| AirssModel.PlaceholderItem | public/airss_model.js:267-281 | at most one placeholder, carrying the random URL and the feed's id |
| AirssModel.FeedUrlStored | public/airss_model.js:241-242 | a URL the feed index refuses belongs to a stored feed, so the lookup by URL finds an id |
| AirssModel.FeedUrlOwnedBy | public/airss_model.js:293 | a stored feed's URL belongs to no other feed, so the closing `put` of a known feed cannot fail |
| AirssModel.HasUrlRecs | public/items.js:125-126 | the unique index holds exactly the URLs of the stored items |
| AirssModel.PushedStep | public/airss_model.js:251-264 | one turn of the push loop stores the entry iff its URL is new, under a new key appended to the timeline |
| AirssModel.Engine.constructor | public/airss_model.js:24-25 | no load is outstanding at start |
| AirssModel.Engine.TryLoad | public/airss_model.js:28-49 | nothing starts iff a load is outstanding, more than `waterMark` items are unread, no head exists, the head is not stored (where `Feeds.get` throws a `TypeError`, which rejects this and every later callback of the chain), or it was loaded within `minReloadWait` hours; otherwise the rotation turns exactly once, the flag is set, and the head goes out with its stored item URLs |
| AirssModel.Engine.StartLoad | public/airss_model.js:44-48 | the open gate rotates once, collects the feed's stored URLs and sets the flag |
| AirssModel.Engine.UpdateFeed | public/airss_model.js:225-295 | the flag is cleared; a completed merge stores the accepted entries and at most one placeholder, records the load times and clears the error; the closing `try_load` never finds the engine busy |
| AirssModel.Engine.Reload | public/airss_model.js:294 | the trailing `try_load` runs with the flag cleared, so it never answers busy |
| AirssModel.Engine.MergeFeed | public/airss_model.js:233-293 | registration, pushes, placeholder, load times and `put`; a merge fails only on a placeholder URL conflict or a conflicting `put` |
| AirssModel.Engine.MergeResolved | public/airss_model.js:251-293 | for a registered feed: the pushes, then the feed stored with `lastLoadTime` now, `lastFetchTime` now iff items were added, and the error removed |
| AirssModel.Engine.PushBatch | public/airss_model.js:251-281 | the timeline grows by the accepted entries and then the placeholder, if one is due |
| AirssModel.Engine.ResolveFeed | public/airss_model.js:233-249 | a new feed gets both load times set to now and is added; on a URL conflict it takes the stored feed's id; a known feed is left as is |
| AirssModel.Engine.AddNewFeed | public/airss_model.js:233-249 | the added or adopted id names a stored feed with the new feed's URL, and only a fresh URL changes the rotation and store |
| AirssModel.Engine.PushPlaceholder | public/airss_model.js:267-281 | no placeholder, or exactly one stored under a new key, which fails only when its URL is taken |
| AirssModel.Engine.StoreFeed | public/airss_model.js:293 | the closing `put` succeeds iff no other feed has the URL |
| AirssModel.Engine.Push | public/airss_model.js:255-263 | a stored URL is skipped; otherwise the item is stored and appended |
| AirssModel.Engine.PushEntries | public/airss_model.js:251-264 | the loop from the last entry to the first stores exactly the accepted entries, in that order |
| AirssModel.Engine.PushEntry | public/airss_model.js:252-263 | one turn of the push loop keeps the loop invariant |
| AirssModel.Engine.StoredUrls | public/airss_model.js:45 | the URLs handed to the loader are the feed's stored non-placeholder URLs, without repeats |
| AirssModel.Engine.RotateFeeds | public/airss_model.js:44 | one rotation |
| AirssModel.Engine.Init | public/airss_model.js:58-70 | the rotation holds every stored feed once; the timeline is the retention scan with the cursor on the oldest unread item; then `try_load` |
| AirssModel.Engine.LoadAll | public/airss_model.js:64-65 | `Feeds.load` then `Items.load` establish the engine invariant |
| AirssModel.Engine.ForwardItem | public/airss_model.js:112-124 | the current item is marked read and the unread count drops iff it was unread; the cursor moves iff it was before the last item; `try_load` follows either way |
| AirssModel.Engine.Refill | public/airss_model.js:116-123 | the `try_load` after a move changes neither timeline nor store |
| AirssModel.Engine.Advance | public/airss_model.js:114 | `Items.forward` inside the engine, which keeps the per-feed sets in step |
| AirssModel.Engine.BackwardItem | public/airss_model.js:126-136 | the current item is marked read; the cursor moves back iff it was past the first item |
| AirssModel.Engine.DeleteItem | public/airss_model.js:138-144 | on a non-empty timeline the current item leaves the timeline and the store; on an empty one nothing happens |
| AirssModel.Engine.Unsubscribe | public/airss_model.js:153-169 | every item of the feed leaves the timeline and the store, no stored item names the feed any more, and the feed leaves the rotation, the item map and the store |
| AirssModel.Engine.AddFeed | public/airss_model.js:171-184 | a subscription whose URL or preset id is already stored is refused and changes no record; otherwise it is stored |
| Loader.StrictIsRestriction | public/loader.js:259-285 | every MIME type the strict table maps, the lenient table maps the same way; plain `application/json` and `text/xml` are accepted only leniently |
| Loader.LastSegment | public/loader.js:287-289 | the part after the last `/`, containing no `/` |
| Loader.FeedTypeFromNameUsesLastSegment | public/loader.js:287-295 | only the segment after the last `/` decides the feed type |
| Loader.LastSegmentWhole | public/loader.js:287-289 | a name without `/` is its own last segment |
| Loader.FeedNameTablesDisjoint | public/loader.js:28-31 | no file name is both a JSON and an XML feed name |
| Loader.TrimEnd | public/loader.js:355-357 | the value without its trailing whitespace, and nothing else removed |
| Loader.MediaTypeSpec | src/loader.js:241-243 | the media type is the Content-Type before the first `;`, without the whitespace before the `;`, and the whole value when there is no `;` |
| Loader.FeedParsersKeepIdentity | public/loader.js:451-477 | the three feed parsers replace the title, replace the home page only with a truthy link, and leave every other field of the feed alone |
| Loader.EnclosureImage | public/loader.js:545-549 | an enclosure gives the image URL iff its type's part before `/` is exactly `image` |
| Loader.ParseJSONItem | public/loader.js:504-523 | null iff the URL does not resolve; the body is `content_html`, else `content_text` in `<p>`, else empty; tags default to none |
| Loader.ParseRSS2Item | public/loader.js:525-561 | null iff there is no `<pubDate>` or no resolvable link; `content:encoded` wins over `description`, neither wrapped; tags are the categories in document order |
| Loader.ParseATOMItem | public/loader.js:563-604 | the date from `published`, else `updated`; the URL from the alternate link, else the first link; `content` as is, else `summary` in `<p>`; null without a URL or a date |
| Loader.Examined | public/loader.js:427-431 | at most `truncateItems` raw entries from the top are examined |
| Loader.ProcessItems | public/loader.js:420-449 | the result is the examined entries' parses with the null, future-dated and old ones dropped, stamped, in order, and never more than `truncateItems` |
| Loader.AdmittedLength | public/loader.js:432-438 | the filter never adds entries |
| Loader.AdmittedSound | public/loader.js:432-444 | every kept entry is dated within `[now - period, now]` and carries its feed's title and id |
| Loader.AdmittedAppend | public/loader.js:426-446 | kept entries keep their input order |
| Loader.AdmittedSingle | public/loader.js:432-444 | a parsed entry is kept iff it is neither future-dated nor older than the period (inclusive) |
| Loader.AdmittedNothing | public/loader.js:432-433 | null parses contribute nothing |
| Loader.RejectedCountTowardCap | public/loader.js:427-431 | rejected entries count toward the cap: if the first `truncateItems` all fail to parse, nothing is kept |
| Sanitizer.SanitizeAttributes | public/sanitizer.js:36-42 | an attribute is kept iff its name is allowed and its value does not start with `javascript:` |
| Sanitizer.SanitizeAttributesAppend | public/sanitizer.js:36-42 | kept attributes keep their relative order |
| Sanitizer.SanitizeChildrenAppend | public/sanitizer.js:28-34 | kept children keep their relative order |
| Sanitizer.SanitizeNodeClean | public/sanitizer.js:44-53 | every output element has an allowed tag and allowed attributes, and every other output node is text |
| Sanitizer.SanitizeChildrenClean | public/sanitizer.js:28-34 | every node of the filtered children is clean |
| Sanitizer.SanitizeAttributesFixed | public/sanitizer.js:36-42 | allowed attributes pass unchanged |
| Sanitizer.SanitizeNodeFixed | public/sanitizer.js:44-53 | a clean tree passes through the filter unchanged |
| Sanitizer.SanitizeChildrenFixed | public/sanitizer.js:28-34 | clean children pass unchanged |
| Sanitizer.SanitizeIdempotent | public/sanitizer.js:19-53 | filtering the filter's own output returns it unchanged |
| Sanitizer.DroppedElementNotHoisted | public/sanitizer.js:44-53 | a disallowed element is dropped with its whole subtree; none of its children are hoisted |
| Sanitizer.TextSurvivesDroppedElement | public/sanitizer.js:13-17 | `sanitizeText` keeps the text under a tag that the HTML filter drops |
| LegacyItems.KeysBelowSpec | src/items.js:104-119 | the store cursor visits every stored key once, ascending |
| LegacyItems.BuiltContent | src/items.js:35-41 | the body is `content_html`, else `content_text` in `<pre>`, else missing |
| LegacyItems.ParseJSONItem | src/items.js:32-46 | throws "Malformed JSON" iff there is no body, and otherwise returns `undefined` |
| LegacyItems.LegacyTimeline.constructor | src/items.js:20-27 | an empty timeline with both cursors at -1 |
| LegacyItems.LegacyTimeline.UnreadCountBounds | src/items.js:56-58 | `length - known - 1` lies between 0 and the length, and is the length when nothing is known |
| LegacyItems.LegacyTimeline.ForwardCursor | src/items.js:60-67 | fails unchanged at the last index; otherwise adds 1 and raises `known` to the cursor, so `known` never decreases |
| LegacyItems.LegacyTimeline.BackwardCursor | src/items.js:69-73 | `false` and no change at index 0 or below; otherwise subtracts 1 and returns `undefined` |
| LegacyItems.LegacyTimeline.BackwardCursorFixed | src/items.js:69-73 | reports `true` exactly when the cursor moved back |
| LegacyItems.LegacyTimeline.Load | src/items.js:104-119 | every stored key ascending; `known` and the cursor are the number of read records less one |
| LegacyItems.LegacyTimeline.CurrentItem | src/items.js:86-88 | the record at the cursor, nothing for a key not stored, or an error for a cursor off the timeline or an undefined key |
| LegacyItems.LegacyTimeline.PushItem | src/items.js:90-95 | a URL conflict changes nothing; otherwise the record is stored and the pushed record's own `id` is appended, which is `undefined` for a generated key |
| LegacyItems.MarkRead | src/items.js:79-84 | an already-read item causes no store write; otherwise the flag is set and written back |
| LegacyFeeds.LegacyRegistry.constructor | src/feeds.js:10 | an empty queue |
| LegacyFeeds.LegacyRegistry.Load | src/feeds.js:23-33 | every stored feed once, by ascending `lastLoadTime` |
| LegacyFeeds.LegacyRegistry.First | src/feeds.js:35-41 | pops the head, so repeated calls drain the queue; an empty queue yields `undefined` |
| LegacyFeeds.LegacyRegistry.Get | src/feeds.js:46-48 | the stored record, or nothing for a missing key |
| LegacyFeeds.LegacyRegistry.AddFeed | src/feeds.js:50-54 | the new id is prepended, making it the next candidate; a conflict changes nothing |
| LegacyFeeds.LegacyRegistry.UpdateFeed | src/feeds.js:56-58 | `put` of the record as the caller holds it; success iff no other record has its URL |
| LegacyFeeds.LegacyRegistry.RemoveFeed | src/feeds.js:60-63 | every occurrence of the id leaves the queue, the others keep their order, and the record leaves the store |
| LegacyFeeds.NewFeedPutFails | src/airss_model.js:361 | the write-back of a new feed, which has no id, finds its URL taken |
| LegacyLoader.ParseJSONItem | src/loader.js:337-357 | null iff there is no body or no truthy URL; the URL is taken as written |
| LegacyLoader.ParseRSS2Item | src/loader.js:359-396 | null iff there is no link; a missing `<pubDate>` leaves the date undefined |
| LegacyLoader.ParseATOMItem | src/loader.js:398-440 | the alternate link, else the first link, else null |
| LegacyLoader.ProcessItems | src/loader.js:273-291 | the result is `Taken` of the parses: null parses skipped, stopped at the first stale entry or once `MaxKeptItems` are kept |
| LegacyLoader.TakenBounded | src/loader.js:285-286 | never more than `MaxKeptItems` entries (one at most when the cap is not positive) |
| LegacyLoader.StaleEndsScan | src/loader.js:280-283 | nothing after the first stale entry is kept |
| LegacyLoader.DifferencesFromPublic | src/loader.js:273-291 | a stale top entry hides a fresh one, which public/loader.js keeps; a future-dated entry is kept, which public/loader.js drops |
| LegacyModel.StoredOr | src/airss_model.js:20-26 | a setting is the stored text's number, or the default when unset or empty |
| LegacyModel.StoredText | src/airss_model.js:20-26 | the setting's text as concatenation reads it |
| LegacyModel.LegacyPlaceholderFor | src/airss_model.js:338-350 | the same decision as the current merge whenever the period is a number; a `NaN` period never asks for the silence placeholder |
| LegacyModel.LegacyOopsItem | src/airss_model.js:268-281 | the failure placeholder is a placeholder of the given feed id, dated now |
| LegacyModel.LegacyQuietItem | src/airss_model.js:283-296 | the silence placeholder is a placeholder of the given feed id, dated now |
| LegacyModel.MergedFeed | src/airss_model.js:338-360 | the feed as written back: `lastLoadTime` now, `lastFetchTime` now iff items were added, no error, the rest unchanged |
| LegacyModel.Nones | src/items.js:90-95 | `n` undefined timeline entries |
| LegacyModel.LegacyEngine.constructor | src/airss_model.js:384-406 | the engine over its timeline, registry and stores |
| LegacyModel.LegacyEngine.GetLoadCandidate | src/airss_model.js:365-379 | null at or above the watermark (non-strict); otherwise the head is popped for good; null for an empty queue or a recently loaded head; a `TypeError` for a missing record and for every head that passes |
| LegacyModel.LegacyEngine.ForwardItem | src/airss_model.js:156-165 | a warning at the end with nothing changed; otherwise the item the cursor moved to |
| LegacyModel.LegacyEngine.BackwardItem | src/airss_model.js:167-174 | always warns "Already at the beginning", even when the cursor moved back |
| LegacyModel.LegacyEngine.BackwardItemFixed | src/airss_model.js:167-174 | warns iff the cursor was at the first item, and otherwise shows the item it moved back to |
| LegacyModel.LegacyEngine.DeleteItem | src/airss_model.js:176-185 | the call of the undefined `Items.deleteCurrentItem` throws before anything changes |
| LegacyModel.LegacyEngine.AddItems | src/airss_model.js:245-266 | items-loaded is signalled only when an add counted; the undefined `Items.addItem` throws on the first item, so only an empty batch finishes, signalling nothing |
| LegacyModel.LegacyEngine.UpdateFeed | src/airss_model.js:298-363 | a new feed whose URL is taken is refused with nothing changed; otherwise the new id is prepended, the accepted entries and at most one placeholder are stored with one `undefined` timeline entry each, and a known feed is written back with its load times |
| LegacyModel.LegacyEngine.Merge | src/airss_model.js:321-361 | the pushes, then the write-back, which changes nothing for a new feed |
| LegacyModel.LegacyEngine.MergeItems | src/airss_model.js:321-350 | the pushes store the accepted entries, then the placeholder if one is due |
| LegacyModel.LegacyEngine.ResolveId | src/airss_model.js:303-320 | the feed's id, or the prepended id of the newly added feed; none iff a new feed's URL is taken |
| LegacyModel.LegacyEngine.WriteBack | src/airss_model.js:361 | `put` of the merged feed; a feed without an id whose URL is taken changes nothing |
| LegacyModel.LegacyEngine.PushPlaceholder | src/airss_model.js:338-350 | no placeholder, or exactly one stored under a new key, which fails only when its URL is taken |
| LegacyModel.LegacyEngine.PushEntries | src/airss_model.js:321-334 | the loop from the last entry to the first stores exactly the accepted entries |
| LegacyModel.LegacyEngine.PushNew | src/items.js:90-95 | a record without an id is stored under a new key unless its URL is taken, with an `undefined` timeline entry |

## Left out

- I/O, the IndexedDB request and promise plumbing (public/index_db.js beyond the store semantics), and the `state = cb_x(state, ...)` promise chain: entry points are sequential method calls.
- Events (`itemsLoadedEvent`, `itemUpdatedEvent`, `alertEvent`, the `emitModel*` functions) and the `savedCursor` comparison that only decides whether to send one.
- `getCurrentItem`, `getItem`, `updateItem`, `length`, `readingCursor` and `upgrade` in public/items.js: store reads and schema set-up with nothing to state beyond the store model.
- `cb_shutdown`, `cb_clearData`, `cb_refreshItem`, `cb_updateItemText`, `cb_loadMore`, `cb_deleteFeed`, `cb_fetchFeed` and `cb_allFeedUrls` in public/airss_model.js: pass-throughs to operations modelled above, or database life-cycle.
- `cb_markRead`, `cb_currentItem`, `cb_unsubscribe`, `cb_addFeed`, `cb_subscribe` and the Airtable sync in src/airss_model.js and src/loader.js:29-87: outside the engine's timeline and merge decisions.
- The network paths of both loaders (`loadFeed`, `cb_load`, `cb_subscribe`, `sanitize` feed discovery, buffering, saving and restoring feeds), and the DOM queries that fill the element records.
- A `null` Content-Type, on which the `split` in public/loader.js:355-357 throws: the media type is modelled on strings.
- `new Date(text)`, `new URL(text)`, `Math.random` URLs, `Date.toString` and the HTML parser: host behaviour, given as parameters.
- The epoch itself as a date is not told apart from the 0 of a fresh subscription, and `Invalid Date` is not told apart from a missing date; both are `None`, or 0, with the comparisons JavaScript gives them.
- src/feeds.js `rotate`: it is not exported, so its empty body is never reached; the call site ends in a `TypeError` (`LegacyModel.LegacyEngine.GetLoadCandidate`).
- Items.Timeline.Load: the order of the kept ids relies on the IndexedDB cursor visiting keys in descending order; it is modelled as a scan over the key range.
- Feeds.Registry.Load: the `lastLoadTime` index order is taken as a parameter (`LoadTimeOrder`) rather than computed.
- Items.Timeline.AllUrlsOfFeed: states the URLs as a set with their count, not the `Set` iteration order the source follows.
- AirssModel.Engine.UpdateFeed: on a merge ended by a store conflict it states only that a placeholder was due or the feed already had an id, not the partial state the uncaught throw leaves.
- AirssModel.Engine.ForwardItem: states the trailing `try_load` only for the busy and watermark outcomes; `TryLoad` states all of them.
- AirssModel.Engine.Unsubscribe: uses the corrected cursor of `DeleteAllItemsOfFeedClamped`; the "Feed not found" branch is unreachable because deleting a missing key does not fail in IndexedDB.
- LegacyModel.LegacyEngine.AddItems: how many items a working `Items.addItem` would add is not modelled, since src/items.js defines none.

## Findings

| source | as written | input that shows it | evidently intended | confidence | as-written member | corrected member |
|---|---|---|---|---|---|---|
| public/items.js:86-112 | the cursor drops by every deleted id at or before it, so it can fall to -1 | timeline `[1, 2]`, cursor 0, the feed owns item 1: item 2 remains and the cursor is -1, so no item is current | the cursor stays on an item while any remain (0 here) | not executed | Items.Timeline.DeleteAllItemsOfFeed, ItemSpecs.CursorLostExample | Items.Timeline.DeleteAllItemsOfFeedClamped, ItemSpecs.ClampedCursorOk |
| src/items.js:69-73 | `backwardCursor` returns nothing after a successful step back | cursor 1: it moves to 0, and `cb_backwardItem` (src/airss_model.js:167-174) warns "Already at the beginning" and returns null | return `true` after the step, so the caller shows the item | not executed | LegacyItems.LegacyTimeline.BackwardCursor, LegacyModel.LegacyEngine.BackwardItem | LegacyItems.LegacyTimeline.BackwardCursorFixed, LegacyModel.LegacyEngine.BackwardItemFixed |
