/** Specification functions for the timeline of public/items.js: how many
    timeline items are read, where the cursor lands after all items of a
    feed are deleted, and which stored items `load` retains. */
module ItemSpecs {
  import opened Wrappers
  import opened Records
  import opened Seqs

  /** The tag that marks a placeholder item. */
  const DummyTag: string := "_error"

  /** isDummyItem: the tag list is exactly `["_error"]`. */
  function IsDummyItem(item: Item): (r: bool)
    ensures r <==> item.tags == [DummyTag]
  {
    |item.tags| == 1 && item.tags[0] == DummyTag
  }

  // ---------------------------------------------------------------------
  // Read counts

  predicate IsRead(recs: map<Id, Item>, x: Id) {
    x in recs && recs[x].read
  }

  /** How many ids of `s` name a stored item that is read. */
  function CountRead(s: seq<Id>, recs: map<Id, Item>): nat {
    if s == [] then 0
    else CountRead(s[..|s| - 1], recs) + (if IsRead(recs, s[|s| - 1]) then 1 else 0)
  }

  lemma {:induction false} CountReadAppend(a: seq<Id>, b: seq<Id>, recs: map<Id, Item>)
    ensures CountRead(a + b, recs) == CountRead(a, recs) + CountRead(b, recs)
  {
    if b == [] {
      assert a + b == a;
    } else {
      assert (a + b)[..|a + b| - 1] == a + b[..|b| - 1];
      CountReadAppend(a, b[..|b| - 1], recs);
    }
  }

  lemma {:induction false} CountReadBound(s: seq<Id>, recs: map<Id, Item>)
    ensures CountRead(s, recs) <= |s|
  {
    if s != [] {
      CountReadBound(s[..|s| - 1], recs);
    }
  }

  /** Only the read flags of the items in `s` matter. */
  lemma {:induction false} CountReadFrame(s: seq<Id>, r1: map<Id, Item>, r2: map<Id, Item>)
    requires forall x :: x in s ==> IsRead(r1, x) == IsRead(r2, x)
    ensures CountRead(s, r1) == CountRead(s, r2)
  {
    if s != [] {
      assert s[|s| - 1] in s;
      CountReadFrame(s[..|s| - 1], r1, r2);
    }
  }

  lemma {:induction false} CountReadSplit(s: seq<Id>, drop: set<Id>, recs: map<Id, Item>)
    ensures CountRead(s, recs) == CountRead(Only(s, drop), recs) + CountRead(Removed(s, drop), recs)
  {
    if s != [] {
      var init := s[..|s| - 1];
      var x := s[|s| - 1];
      CountReadSplit(init, drop, recs);
      assert CountRead([x], recs) == if IsRead(recs, x) then 1 else 0 by {
        assert [x][..0] == [];
      }
      if x in drop {
        assert Only(s, drop) == Only(init, drop) + [x];
        assert Removed(s, drop) == Removed(init, drop);
        CountReadAppend(Only(init, drop), [x], recs);
      } else {
        assert Removed(s, drop) == Removed(init, drop) + [x];
        assert Only(s, drop) == Only(init, drop);
        CountReadAppend(Removed(init, drop), [x], recs);
      }
    }
  }

  lemma {:induction false} CountReadReverse(s: seq<Id>, recs: map<Id, Item>)
    ensures CountRead(Reverse(s), recs) == CountRead(s, recs)
  {
    if s != [] {
      var init := s[..|s| - 1];
      CountReadReverse(init, recs);
      CountReadAppend([s[|s| - 1]], Reverse(init), recs);
      assert [s[|s| - 1]][..0] == [];
    }
  }

  /** Marking one timeline item read raises the count by one exactly when
      it was unread. */
  lemma CountReadMark(s: seq<Id>, recs: map<Id, Item>, i: int)
    requires Distinct(s) && 0 <= i < |s| && s[i] in recs
    ensures CountRead(s, recs[s[i] := recs[s[i]].(read := true)])
         == CountRead(s, recs) + (if recs[s[i]].read then 0 else 1)
  {
    var marked := recs[s[i] := recs[s[i]].(read := true)];
    var a, b := s[..i], s[i + 1..];
    assert s == a + [s[i]] + b;
    forall x | x in a + b ensures IsRead(recs, x) == IsRead(marked, x) {
      if x in a {
        var j :| 0 <= j < |a| && a[j] == x;
        assert s[j] == x;
      } else {
        var j :| 0 <= j < |b| && b[j] == x;
        assert s[i + 1 + j] == x;
      }
    }
    CountReadAppend(a, b, recs);
    CountReadAppend(a, b, marked);
    CountReadFrame(a + b, recs, marked);
    CountReadAppend(a + [s[i]], b, recs);
    CountReadAppend(a + [s[i]], b, marked);
    CountReadAppend(a, [s[i]], recs);
    CountReadAppend(a, [s[i]], marked);
    assert [s[i]][..0] == [];
  }

  /** Deleting one timeline item lowers the count by one exactly when it
      was read. */
  lemma CountReadDelete(s: seq<Id>, recs: map<Id, Item>, i: int)
    requires Distinct(s) && 0 <= i < |s|
    ensures CountRead(s[..i] + s[i + 1..], recs - {s[i]})
         == CountRead(s, recs) - (if IsRead(recs, s[i]) then 1 else 0)
  {
    var a, b := s[..i], s[i + 1..];
    assert s == a + [s[i]] + b;
    var rest := recs - {s[i]};
    forall x | x in a + b ensures IsRead(recs, x) == IsRead(rest, x) {
      if x in a {
        var j :| 0 <= j < |a| && a[j] == x;
        assert s[j] == x;
      } else {
        var j :| 0 <= j < |b| && b[j] == x;
        assert s[i + 1 + j] == x;
      }
    }
    CountReadFrame(a + b, recs, rest);
    CountReadAppend(a, b, recs);
    CountReadAppend(a, b, rest);
    CountReadAppend(a + [s[i]], b, recs);
    CountReadAppend(a, [s[i]], recs);
    assert [s[i]][..0] == [];
  }

  // ---------------------------------------------------------------------
  // Cursor after deleteAllItemsOfFeed

  /** How far `deleteAllItemsOfFeed` moves the cursor back: the removed
      indices at or before it; with a negative cursor the position is never
      passed, so every removed index counts. */
  function Shrink(s: seq<Id>, r: int, drop: set<Id>): nat {
    if 0 <= r < |s| then |Only(s[..r + 1], drop)| else |Only(s, drop)|
  }

  /** The cursor `deleteAllItemsOfFeed` leaves, as written. */
  function CursorAfterDelete(s: seq<Id>, r: int, drop: set<Id>): int {
    var c := r - Shrink(s, r, drop);
    if c == |Removed(s, drop)| then c - 1 else c
  }

  /** The cursor stays below the new length. */
  lemma CursorAfterDeleteBound(s: seq<Id>, r: int, drop: set<Id>)
    requires r < |s|
    ensures CursorAfterDelete(s, r, drop) < |Removed(s, drop)|
    ensures 0 <= r ==> -1 <= CursorAfterDelete(s, r, drop)
  {
    if 0 <= r {
      var p, q := s[..r + 1], s[r + 1..];
      assert s == p + q;
      RemovedAppend(p, q, drop);
      RemovedSplit(p, drop);
    }
  }

  /** When the current item survives, the cursor stays on it. */
  lemma CursorFollowsSurvivor(s: seq<Id>, r: int, drop: set<Id>)
    requires 0 <= r < |s| && s[r] !in drop
    ensures var c := CursorAfterDelete(s, r, drop);
      0 <= c < |Removed(s, drop)| && Removed(s, drop)[c] == s[r]
  {
    RemovedAround(s, r, drop);
    ShrinkAtSurvivor(s, r, drop);
    var before := Removed(s[..r], drop);
    assert Removed(s, drop)[|before|] == s[r];
  }

  /** Filtering around a surviving element. */
  lemma RemovedAround(s: seq<Id>, r: int, drop: set<Id>)
    requires 0 <= r < |s| && s[r] !in drop
    ensures Removed(s, drop) == Removed(s[..r], drop) + [s[r]] + Removed(s[r + 1..], drop)
  {
    assert s == s[..r] + [s[r]] + s[r + 1..];
    RemovedAppend(s[..r] + [s[r]], s[r + 1..], drop);
    RemovedAppend(s[..r], [s[r]], drop);
    assert [s[r]][..0] == [];
  }

  /** At a surviving element the shrink leaves the cursor on the number of
      survivors before it. */
  lemma ShrinkAtSurvivor(s: seq<Id>, r: int, drop: set<Id>)
    requires 0 <= r < |s| && s[r] !in drop
    ensures r - Shrink(s, r, drop) == |Removed(s[..r], drop)|
  {
    assert s[..r + 1][..r] == s[..r];
    assert Only(s[..r + 1], drop) == Only(s[..r], drop);
    RemovedSplit(s[..r], drop);
  }

  /** With the current item removed and no surviving item before it, the
      as-written cursor is -1 although items remain. */
  lemma CursorLostExample()
    ensures Removed([1, 2], {1}) == [2]
    ensures CursorAfterDelete([1, 2], 0, {1}) == -1
  {
    assert [1, 2][..1] == [1];
    assert [1][..0] == [];
    assert Only([1], {1}) == [1];
    assert Removed([1], {1}) == [];
    assert Removed([1, 2], {1}) == Removed([1], {1}) + [2];
  }

  /** The corrected cursor: onto the first remaining item when the
      as-written one falls off the front. */
  function ClampedCursor(s: seq<Id>, r: int, drop: set<Id>): int {
    var c := CursorAfterDelete(s, r, drop);
    if c < 0 && |Removed(s, drop)| > 0 then 0 else c
  }

  /** The corrected cursor keeps the timeline's cursor invariant: it is -1
      exactly when no item remains, and otherwise indexes an item. */
  lemma ClampedCursorOk(s: seq<Id>, r: int, drop: set<Id>)
    requires -1 <= r < |s| && (r == -1 <==> s == [])
    ensures var c := ClampedCursor(s, r, drop);
      -1 <= c < |Removed(s, drop)| && (c == -1 <==> Removed(s, drop) == [])
  {
    CursorAfterDeleteBound(s, r, drop);
  }

  // ---------------------------------------------------------------------
  // load

  /** The cursor's landing place: one past the position of the last unread
      id in `b`, or 0 when every item is read. */
  function LastUnread(b: seq<Id>, recs: map<Id, Item>): (u: nat)
    ensures u <= |b|
  {
    if b == [] then 0
    else if !IsRead(recs, b[|b| - 1]) then |b|
    else LastUnread(b[..|b| - 1], recs)
  }

  lemma {:induction false} LastUnreadSpec(b: seq<Id>, recs: map<Id, Item>)
    ensures var u := LastUnread(b, recs);
      && (u > 0 ==> !IsRead(recs, b[u - 1]))
      && (forall j :: u <= j < |b| ==> IsRead(recs, b[j]))
  {
    if b != [] && IsRead(recs, b[|b| - 1]) {
      LastUnreadSpec(b[..|b| - 1], recs);
    }
  }

  /** Retained by `load`: dated, and younger than the period (strictly). */
  predicate Young(item: Item, now: int, maxKeptPeriod: int) {
    item.datePublished.Some? && now - item.datePublished.value < maxKeptPeriod * DayMs
  }

  /** The state of `load`'s descending cursor scan. */
  datatype Scan = Scan(kept: seq<Id>, perFeed: map<Id, int>, expired: seq<Id>)

  function PerFeed(m: map<Id, int>, f: Id): int {
    if f in m then m[f] else 0
  }

  /** The scan after visiting every stored key in `[k, top)`, highest
      first: an item is kept when it is young and its feed has fewer than
      `maxKeptItems` kept items so far; otherwise it expires. */
  function ScanFrom(recs: map<Id, Item>, k: Id, top: int, now: int, maxKeptPeriod: int, maxKeptItems: int): Scan
    decreases top - k
  {
    if k >= top then Scan([], map[], [])
    else
      var s := ScanFrom(recs, k + 1, top, now, maxKeptPeriod, maxKeptItems);
      if k !in recs then s
      else
        var item := recs[k];
        var count := PerFeed(s.perFeed, item.feedId);
        if Young(item, now, maxKeptPeriod) && count < maxKeptItems
        then Scan(s.kept + [k], s.perFeed[item.feedId := count + 1], s.expired)
        else Scan(s.kept, s.perFeed, s.expired + [k])
  }

  /** Kept ids of feed `f` that are above `x`. */
  function CountFeedAbove(s: seq<Id>, recs: map<Id, Item>, f: Id, x: int): nat {
    if s == [] then 0
    else
      var y := s[|s| - 1];
      CountFeedAbove(s[..|s| - 1], recs, f, x) + (if y > x && y in recs && recs[y].feedId == f then 1 else 0)
  }

  lemma {:induction false} CountFeedAboveAppend(a: seq<Id>, b: seq<Id>, recs: map<Id, Item>, f: Id, x: int)
    ensures CountFeedAbove(a + b, recs, f, x) == CountFeedAbove(a, recs, f, x) + CountFeedAbove(b, recs, f, x)
  {
    if b == [] {
      assert a + b == a;
    } else {
      assert (a + b)[..|a + b| - 1] == a + b[..|b| - 1];
      CountFeedAboveAppend(a, b[..|b| - 1], recs, f, x);
    }
  }

  lemma {:induction false} CountFeedAboveNone(s: seq<Id>, recs: map<Id, Item>, f: Id, x: int)
    requires forall i :: 0 <= i < |s| ==> s[i] <= x
    ensures CountFeedAbove(s, recs, f, x) == 0
  {
    if s != [] {
      CountFeedAboveNone(s[..|s| - 1], recs, f, x);
    }
  }

  lemma {:induction false} CountFeedAboveAll(s: seq<Id>, recs: map<Id, Item>, f: Id, x: int, x': int)
    requires forall i :: 0 <= i < |s| ==> s[i] > x && s[i] > x'
    ensures CountFeedAbove(s, recs, f, x) == CountFeedAbove(s, recs, f, x')
  {
    if s != [] {
      CountFeedAboveAll(s[..|s| - 1], recs, f, x, x');
    }
  }

  /** The shape of a scan from `k` up to `top`: kept ids descend strictly
      and every visited stored key is kept or expired but not both. */
  ghost predicate ScanOrdered(s: Scan, recs: map<Id, Item>, k: int, top: int) {
    && (forall i, j :: 0 <= i < j < |s.kept| ==> s.kept[i] > s.kept[j])
    && (forall i :: 0 <= i < |s.kept| ==> k <= s.kept[i] < top && s.kept[i] in recs)
    && (forall i :: 0 <= i < |s.expired| ==> k <= s.expired[i] < top && s.expired[i] in recs)
    && (forall x :: x in recs && k <= x < top ==> (x in s.kept <==> x !in s.expired))
  }

  /** The per-feed counter counts the kept items of each feed and never
      exceeds the cap. */
  ghost predicate ScanCounted(kept: seq<Id>, perFeed: map<Id, int>, recs: map<Id, Item>, maxKeptItems: int) {
    && (forall f :: PerFeed(perFeed, f) == CountFeedAbove(kept, recs, f, 0))
    && (forall f :: PerFeed(perFeed, f) <= if maxKeptItems < 0 then 0 else maxKeptItems)
  }

  lemma {:induction false} ScanShape(recs: map<Id, Item>, k: Id, top: int, now: int, maxKeptPeriod: int, maxKeptItems: int)
    ensures ScanOrdered(ScanFrom(recs, k, top, now, maxKeptPeriod, maxKeptItems), recs, k, top)
    decreases top - k
  {
    if k < top {
      ScanShape(recs, k + 1, top, now, maxKeptPeriod, maxKeptItems);
      var prev := ScanFrom(recs, k + 1, top, now, maxKeptPeriod, maxKeptItems);
      if k in recs {
        var item := recs[k];
        if Young(item, now, maxKeptPeriod) && PerFeed(prev.perFeed, item.feedId) < maxKeptItems {
          KeepOrdered(prev, recs, k, top);
        } else {
          ExpireOrdered(prev, recs, k, top);
        }
      }
    }
  }

  lemma {:induction false} ScanCount(recs: map<Id, Item>, k: Id, top: int, now: int, maxKeptPeriod: int, maxKeptItems: int)
    ensures var s := ScanFrom(recs, k, top, now, maxKeptPeriod, maxKeptItems);
      ScanCounted(s.kept, s.perFeed, recs, maxKeptItems)
    decreases top - k
  {
    if k < top {
      ScanCount(recs, k + 1, top, now, maxKeptPeriod, maxKeptItems);
      var prev := ScanFrom(recs, k + 1, top, now, maxKeptPeriod, maxKeptItems);
      if k in recs {
        var item := recs[k];
        if Young(item, now, maxKeptPeriod) && PerFeed(prev.perFeed, item.feedId) < maxKeptItems {
          ScanShape(recs, k + 1, top, now, maxKeptPeriod, maxKeptItems);
          NotVisited(prev, recs, k, top);
          KeepCounted(prev, recs, k, maxKeptItems);
        }
      }
    }
  }

  /** The visited key is not yet kept or expired. */
  lemma NotVisited(prev: Scan, recs: map<Id, Item>, k: Id, top: int)
    requires ScanOrdered(prev, recs, k + 1, top)
    ensures k !in prev.kept && k !in prev.expired
  {
    forall i | 0 <= i < |prev.kept| ensures prev.kept[i] != k {
    }
    forall i | 0 <= i < |prev.expired| ensures prev.expired[i] != k {
    }
  }

  lemma KeepOrdered(prev: Scan, recs: map<Id, Item>, k: Id, top: int)
    requires k < top && k in recs && ScanOrdered(prev, recs, k + 1, top)
    ensures forall m :: ScanOrdered(Scan(prev.kept + [k], m, prev.expired), recs, k, top)
  {
    NotVisited(prev, recs, k, top);
    forall m ensures ScanOrdered(Scan(prev.kept + [k], m, prev.expired), recs, k, top) {
      var kept := prev.kept + [k];
      forall i, j | 0 <= i < j < |kept| ensures kept[i] > kept[j] {
        assert kept[i] == prev.kept[i];
      }
    }
  }

  lemma KeepCounted(prev: Scan, recs: map<Id, Item>, k: Id, maxKeptItems: int)
    requires k in recs && ScanCounted(prev.kept, prev.perFeed, recs, maxKeptItems)
    requires forall i :: 0 <= i < |prev.kept| ==> prev.kept[i] != k
    requires PerFeed(prev.perFeed, recs[k].feedId) < maxKeptItems
    ensures ScanCounted(prev.kept + [k], prev.perFeed[recs[k].feedId := PerFeed(prev.perFeed, recs[k].feedId) + 1],
                        recs, maxKeptItems)
  {
    var m := prev.perFeed[recs[k].feedId := PerFeed(prev.perFeed, recs[k].feedId) + 1];
    forall f ensures PerFeed(m, f) == CountFeedAbove(prev.kept + [k], recs, f, 0) {
      CountFeedAboveAppend(prev.kept, [k], recs, f, 0);
      assert [k][..0] == [];
      assert CountFeedAbove([k], recs, f, 0) == if recs[k].feedId == f then 1 else 0;
      assert PerFeed(prev.perFeed, f) == CountFeedAbove(prev.kept, recs, f, 0);
    }
    forall f ensures PerFeed(m, f) <= if maxKeptItems < 0 then 0 else maxKeptItems {
      assert PerFeed(prev.perFeed, f) <= if maxKeptItems < 0 then 0 else maxKeptItems;
    }
  }

  lemma ExpireOrdered(prev: Scan, recs: map<Id, Item>, k: Id, top: int)
    requires k < top && k in recs && ScanOrdered(prev, recs, k + 1, top)
    ensures ScanOrdered(Scan(prev.kept, prev.perFeed, prev.expired + [k]), recs, k, top)
  {
    NotVisited(prev, recs, k, top);
  }

  /** Unfolding one step of the scan at a stored key. */
  lemma ScanStep(recs: map<Id, Item>, x: Id, top: int, now: int, maxKeptPeriod: int, maxKeptItems: int)
    requires x in recs && x < top
    ensures var above := ScanFrom(recs, x + 1, top, now, maxKeptPeriod, maxKeptItems);
      ScanFrom(recs, x, top, now, maxKeptPeriod, maxKeptItems).kept
        == above.kept
           + (if Young(recs[x], now, maxKeptPeriod) && PerFeed(above.perFeed, recs[x].feedId) < maxKeptItems
              then [x] else [])
  {
  }

  /** Retention: an item survives `load` exactly when it is younger than
      the period and fewer than `maxKeptItems` newer items of its feed
      survive. */
  lemma RetentionRule(recs: map<Id, Item>, x: Id, top: int, now: int, maxKeptPeriod: int, maxKeptItems: int)
    requires x in recs && x < top
    ensures var kept := ScanFrom(recs, 1, top, now, maxKeptPeriod, maxKeptItems).kept;
      x in kept <==>
        Young(recs[x], now, maxKeptPeriod) && CountFeedAbove(kept, recs, recs[x].feedId, x) < maxKeptItems
  {
    var f := recs[x].feedId;
    var above := ScanFrom(recs, x + 1, top, now, maxKeptPeriod, maxKeptItems);
    var all := ScanFrom(recs, 1, top, now, maxKeptPeriod, maxKeptItems).kept;
    var young := Young(recs[x], now, maxKeptPeriod) && PerFeed(above.perFeed, f) < maxKeptItems;
    ScanStep(recs, x, top, now, maxKeptPeriod, maxKeptItems);
    ScanShape(recs, x + 1, top, now, maxKeptPeriod, maxKeptItems);
    ScanCount(recs, x + 1, top, now, maxKeptPeriod, maxKeptItems);
    KeptExtends(recs, 1, x, top, now, maxKeptPeriod, maxKeptItems);
    KeptPrefix(all, above.kept, recs, x, young);
  }

  /** The kept ids of a whole scan are those above `x`, then `x` when it
      was kept, then ids below `x`. */
  lemma KeptPrefix(all: seq<Id>, above: seq<Id>, recs: map<Id, Item>, x: Id, young: bool)
    requires forall i :: 0 <= i < |above| ==> above[i] > x
    requires var at := above + (if young then [x] else []);
      |at| <= |all| && all[..|at|] == at && forall i :: |at| <= i < |all| ==> all[i] < x
    ensures x in all <==> young
    ensures forall f :: CountFeedAbove(all, recs, f, x) == CountFeedAbove(above, recs, f, 0)
  {
    var at := above + (if young then [x] else []);
    var rest := all[|at|..];
    assert all == at + rest;
    assert x !in rest by {
      forall i | 0 <= i < |rest| ensures rest[i] != x {
        assert rest[i] == all[|at| + i];
      }
    }
    assert x !in above by {
      forall i | 0 <= i < |above| ensures above[i] != x {
      }
    }
    forall f ensures CountFeedAbove(all, recs, f, x) == CountFeedAbove(above, recs, f, 0) {
      CountFeedAboveAppend(at, rest, recs, f, x);
      CountFeedAboveNone(rest, recs, f, x) by {
        forall i | 0 <= i < |rest| ensures rest[i] <= x {
          assert rest[i] == all[|at| + i];
        }
      }
      CountFeedAboveAppend(above, if young then [x] else [], recs, f, x);
      CountFeedAboveNone(if young then [x] else [], recs, f, x);
      CountFeedAboveAll(above, recs, f, x, 0);
    }
  }

  /** A later (lower) scan only appends ids below where it started. */
  lemma {:induction false} KeptExtends(recs: map<Id, Item>, k: Id, k': Id, top: int, now: int, maxKeptPeriod: int, maxKeptItems: int)
    requires k <= k'
    ensures var lo := ScanFrom(recs, k, top, now, maxKeptPeriod, maxKeptItems).kept;
            var hi := ScanFrom(recs, k', top, now, maxKeptPeriod, maxKeptItems).kept;
      && |hi| <= |lo| && lo[..|hi|] == hi
      && (forall i :: |hi| <= i < |lo| ==> lo[i] < k')
    decreases k' - k
  {
    if k < k' && k < top {
      KeptExtends(recs, k + 1, k', top, now, maxKeptPeriod, maxKeptItems);
    }
  }

  /** The per-feed cap holds after `load`. */
  lemma PerFeedCap(recs: map<Id, Item>, top: int, now: int, maxKeptPeriod: int, maxKeptItems: int, f: Id)
    ensures CountFeedAbove(ScanFrom(recs, 1, top, now, maxKeptPeriod, maxKeptItems).kept, recs, f, 0)
         <= if maxKeptItems < 0 then 0 else maxKeptItems
  {
    ScanCount(recs, 1, top, now, maxKeptPeriod, maxKeptItems);
  }

  /** The state of `load`'s scan once the cursor has visited every stored
      key above `k`: the kept ids (`buffer`, highest first), the per-feed
      counters and the expired ids are those of the specification, the read
      count covers the kept items, and `unread` is one past the position in
      `buffer` of the last unread item pushed (0 when none). */
  ghost predicate LoadScanned(recs: map<Id, Item>, k: int, top: int, now: int, maxKeptPeriod: int, maxKeptItems: int,
                              buffer: seq<Id>, perFeed: map<Id, int>, expired: seq<Id>, rc: int, unread: int)
    requires 0 <= k
  {
    && Scan(buffer, perFeed, expired) == ScanFrom(recs, k + 1, top, now, maxKeptPeriod, maxKeptItems)
    && rc == CountRead(buffer, recs)
    && unread == LastUnread(buffer, recs)
  }

  /** One more key visited, going down: kept, expired, or absent. */
  lemma LoadScannedStep(recs: map<Id, Item>, k: Id, top: int, now: int, maxKeptPeriod: int, maxKeptItems: int,
                        buffer: seq<Id>, perFeed: map<Id, int>, expired: seq<Id>, rc: int, unread: int,
                        buffer': seq<Id>, perFeed': map<Id, int>, expired': seq<Id>, rc': int, unread': int)
    requires k < top
    requires LoadScanned(recs, k, top, now, maxKeptPeriod, maxKeptItems, buffer, perFeed, expired, rc, unread)
    requires k !in recs ==>
      buffer' == buffer && perFeed' == perFeed && expired' == expired && rc' == rc && unread' == unread
    requires k in recs ==>
      var item := recs[k];
      var count := PerFeed(perFeed, item.feedId);
      if Young(item, now, maxKeptPeriod) && count < maxKeptItems then
        && buffer' == buffer + [k] && perFeed' == perFeed[item.feedId := count + 1] && expired' == expired
        && rc' == (if item.read then rc + 1 else rc)
        && unread' == (if item.read then unread else |buffer| + 1)
      else
        buffer' == buffer && perFeed' == perFeed && expired' == expired + [k] && rc' == rc && unread' == unread
    ensures LoadScanned(recs, k - 1, top, now, maxKeptPeriod, maxKeptItems, buffer', perFeed', expired', rc', unread')
  {
    var b := buffer + [k];
    assert b[..|buffer|] == buffer;
  }

  /** Index of the first unread id of `s`, or `|s|` when every id is read. */
  function FirstUnread(s: seq<Id>, recs: map<Id, Item>): (f: nat)
    ensures f <= |s|
  {
    if s == [] then 0
    else if !IsRead(recs, s[0]) then 0
    else 1 + FirstUnread(s[1..], recs)
  }

  lemma {:induction false} FirstUnreadSpec(s: seq<Id>, recs: map<Id, Item>)
    ensures var f := FirstUnread(s, recs);
      && (f < |s| ==> !IsRead(recs, s[f]))
      && (forall j :: 0 <= j < f ==> IsRead(recs, s[j]))
  {
    if s != [] && IsRead(recs, s[0]) {
      FirstUnreadSpec(s[1..], recs);
      var f := FirstUnread(s, recs);
      forall j | 0 < j < f ensures IsRead(recs, s[j]) {
        assert s[j] == s[1..][j - 1];
      }
    }
  }

  /** Where `load` leaves the cursor on the ascending timeline `s`: on the
      oldest unread item, or on the last item when every item is read,
      which is -1 on an empty timeline. */
  function LoadCursor(s: seq<Id>, recs: map<Id, Item>): int {
    var f := FirstUnread(s, recs);
    if f < |s| then f else |s| - 1
  }

  /** `load` counts over the descending buffer (`counter - unread`, or
      `counter - 1` when nothing is unread) and lands where `LoadCursor`
      says on the reversed, ascending timeline. */
  lemma LoadCursorFromBuffer(b: seq<Id>, recs: map<Id, Item>)
    ensures var u := LastUnread(b, recs);
      (if u == 0 then |b| - 1 else |b| - u) == LoadCursor(Reverse(b), recs)
  {
    var u := LastUnread(b, recs);
    var s := Reverse(b);
    LastUnreadSpec(b, recs);
    FirstUnreadSpec(s, recs);
    var f := FirstUnread(s, recs);
    if u == 0 {
      forall j | 0 <= j < |s| ensures IsRead(recs, s[j]) {
        assert s[j] == b[|b| - 1 - j];
      }
      assert f == |s|;
    } else {
      assert s[|b| - u] == b[u - 1];
      forall j | 0 <= j < |b| - u ensures IsRead(recs, s[j]) {
        assert s[j] == b[|b| - 1 - j];
      }
      assert f == |b| - u;
    }
  }

  lemma {:induction false} CountFeedAboveReverse(s: seq<Id>, recs: map<Id, Item>, f: Id, x: int)
    ensures CountFeedAbove(Reverse(s), recs, f, x) == CountFeedAbove(s, recs, f, x)
  {
    if s != [] {
      var init := s[..|s| - 1];
      CountFeedAboveReverse(init, recs, f, x);
      CountFeedAboveAppend([s[|s| - 1]], Reverse(init), recs, f, x);
      assert [s[|s| - 1]][..0] == [];
    }
  }

  /** The retention rule and the per-feed cap on the ascending timeline
      that `load` builds from the scan. */
  lemma LoadRetention(recs: map<Id, Item>, top: int, now: int, maxKeptPeriod: int, maxKeptItems: int)
    requires forall x :: x in recs ==> x < top
    ensures var items := Reverse(ScanFrom(recs, 1, top, now, maxKeptPeriod, maxKeptItems).kept);
      && (forall x :: x in recs ==>
            (x in items <==>
               Young(recs[x], now, maxKeptPeriod) && CountFeedAbove(items, recs, recs[x].feedId, x) < maxKeptItems))
      && (forall f :: CountFeedAbove(items, recs, f, 0) <= if maxKeptItems < 0 then 0 else maxKeptItems)
  {
    var kept := ScanFrom(recs, 1, top, now, maxKeptPeriod, maxKeptItems).kept;
    ReverseHas(kept);
    forall x | x in recs
      ensures x in Reverse(kept) <==>
        Young(recs[x], now, maxKeptPeriod) && CountFeedAbove(Reverse(kept), recs, recs[x].feedId, x) < maxKeptItems
    {
      RetentionRule(recs, x, top, now, maxKeptPeriod, maxKeptItems);
      CountFeedAboveReverse(kept, recs, recs[x].feedId, x);
    }
    forall f ensures CountFeedAbove(Reverse(kept), recs, f, 0) <= if maxKeptItems < 0 then 0 else maxKeptItems {
      PerFeedCap(recs, top, now, maxKeptPeriod, maxKeptItems, f);
      CountFeedAboveReverse(kept, recs, f, 0);
    }
  }

  // ---------------------------------------------------------------------
  // Ordering, unread count and the URLs of a feed

  /** Strictly ascending ids: the timeline's order. */
  predicate Ascending(s: seq<Id>) {
    forall i, j :: 0 <= i < j < |s| ==> s[i] < s[j]
  }

  /** Filtering keeps a timeline ascending. */
  lemma {:induction false} RemovedAscending(s: seq<Id>, drop: set<Id>)
    requires Ascending(s)
    ensures Ascending(Removed(s, drop))
  {
    if s != [] {
      var init := s[..|s| - 1];
      var k := s[|s| - 1];
      RemovedAscending(init, drop);
      RemovedSplit(init, drop);
      forall x | x in Removed(init, drop) ensures x < k {
        BelowLast(s, x);
      }
      if k !in drop {
        AscendingAppend(Removed(init, drop), k);
      }
    }
  }

  /** In an ascending sequence every earlier element is below the last. */
  lemma BelowLast(s: seq<Id>, x: Id)
    requires Ascending(s) && s != [] && x in s[..|s| - 1]
    ensures x < s[|s| - 1]
  {
    var j :| 0 <= j < |s| - 1 && s[..|s| - 1][j] == x;
    assert s[j] == x;
  }

  /** Appending a key above every element keeps a sequence ascending. */
  lemma AscendingAppend(s: seq<Id>, k: Id)
    requires Ascending(s) && forall x :: x in s ==> x < k
    ensures Ascending(s + [k])
  {
    var t := s + [k];
    forall a, b | 0 <= a < b < |t| ensures t[a] < t[b] {
      assert t[a] == s[a] && s[a] in s;
      if b < |s| {
        assert t[b] == s[b];
      }
    }
  }

  /** How many ids of `s` name a stored item that is not read. */
  function CountUnread(s: seq<Id>, recs: map<Id, Item>): nat {
    if s == [] then 0
    else CountUnread(s[..|s| - 1], recs) + (if IsRead(recs, s[|s| - 1]) then 0 else 1)
  }

  /** Every timeline id is read or unread. */
  lemma {:induction false} CountReadUnread(s: seq<Id>, recs: map<Id, Item>)
    ensures CountRead(s, recs) + CountUnread(s, recs) == |s|
  {
    if s != [] {
      CountReadUnread(s[..|s| - 1], recs);
    }
  }

  /** The stored items of `ids` that are not placeholders. */
  ghost function NonDummy(ids: set<Id>, recs: map<Id, Item>): set<Id> {
    set x | x in ids && x in recs && !IsDummyItem(recs[x])
  }

  /** The URLs of the stored items of `ids` that are not placeholders. */
  ghost function UrlsOf(ids: set<Id>, recs: map<Id, Item>): set<string> {
    set x | x in ids && x in recs && !IsDummyItem(recs[x]) :: recs[x].url
  }

  /** No two stored items share a URL (the unique `url` index). */
  ghost predicate UniqueUrls(recs: map<Id, Item>) {
    forall a, b :: a in recs && b in recs && recs[a].url == recs[b].url ==> a == b
  }

  /** The state of `allUrlsOfFeed`'s loop after visiting `done`: each
      non-placeholder item visited contributed its URL once. */
  ghost predicate UrlsSoFar(urls: seq<string>, done: set<Id>, recs: map<Id, Item>) {
    && (forall u :: u in urls <==> u in UrlsOf(done, recs))
    && |urls| == |NonDummy(done, recs)|
    && Distinct(urls)
  }

  /** Visiting a placeholder changes nothing. */
  lemma UrlsSoFarSkip(urls: seq<string>, all: set<Id>, rest: set<Id>, recs: map<Id, Item>, x: Id)
    requires UrlsSoFar(urls, all - rest, recs)
    requires rest <= all && x in rest && x in recs && IsDummyItem(recs[x])
    ensures UrlsSoFar(urls, all - (rest - {x}), recs)
  {
    var done := all - rest;
    assert all - (rest - {x}) == done + {x};
    assert NonDummy(done + {x}, recs) == NonDummy(done, recs);
    assert UrlsOf(done + {x}, recs) == UrlsOf(done, recs);
  }

  /** Visiting a stored non-placeholder item adds its URL, which unique
      URLs make new. */
  lemma UrlsSoFarAdd(urls: seq<string>, all: set<Id>, rest: set<Id>, recs: map<Id, Item>, x: Id)
    requires UrlsSoFar(urls, all - rest, recs) && UniqueUrls(recs)
    requires rest <= all && x in rest && x in recs && !IsDummyItem(recs[x])
    ensures UrlsSoFar(urls + [recs[x].url], all - (rest - {x}), recs)
  {
    var done := all - rest;
    assert all - (rest - {x}) == done + {x};
    NonDummyAdd(done, recs, x);
    UrlsOfAdd(done, recs, x);
    DistinctAppend(urls, recs[x].url);
  }

  lemma NonDummyAdd(done: set<Id>, recs: map<Id, Item>, x: Id)
    requires x in recs && x !in done && !IsDummyItem(recs[x])
    ensures |NonDummy(done + {x}, recs)| == |NonDummy(done, recs)| + 1
  {
    var n := NonDummy(done, recs);
    assert NonDummy(done + {x}, recs) == n + {x};
    assert x !in n;
  }

  lemma UrlsOfAdd(done: set<Id>, recs: map<Id, Item>, x: Id)
    requires x in recs && x !in done && !IsDummyItem(recs[x]) && UniqueUrls(recs)
    ensures UrlsOf(done + {x}, recs) == UrlsOf(done, recs) + {recs[x].url}
    ensures recs[x].url !in UrlsOf(done, recs)
  {
    assert recs[x].url in UrlsOf(done + {x}, recs);
  }

  lemma DistinctAppend(s: seq<string>, u: string)
    requires Distinct(s) && u !in s
    ensures Distinct(s + [u])
  {
    var t := s + [u];
    forall i, j | 0 <= i < j < |t| ensures t[i] != t[j] {
      if j == |s| {
        assert t[i] == s[i] && s[i] in s;
      }
    }
  }
}
