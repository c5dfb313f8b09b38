/** Sequence operations the timeline and the rotation queue are specified
    with: filtering by a set of ids, rotation and reversal. */
module Seqs {

  predicate Distinct<T(==)>(s: seq<T>) {
    forall i, j :: 0 <= i < j < |s| ==> s[i] != s[j]
  }

  /** `s` without the elements in `drop`, in order (`s.filter(x => !drop.has(x))`). */
  function Removed<T(==)>(s: seq<T>, drop: set<T>): seq<T> {
    if s == [] then []
    else Removed(s[..|s| - 1], drop) + (if s[|s| - 1] in drop then [] else [s[|s| - 1]])
  }

  /** The elements of `s` that are in `keep`, in order. */
  function Only<T(==)>(s: seq<T>, keep: set<T>): seq<T> {
    if s == [] then []
    else Only(s[..|s| - 1], keep) + (if s[|s| - 1] in keep then [s[|s| - 1]] else [])
  }

  lemma {:induction false} RemovedAppend<T>(a: seq<T>, b: seq<T>, drop: set<T>)
    ensures Removed(a + b, drop) == Removed(a, drop) + Removed(b, drop)
    ensures Only(a + b, drop) == Only(a, drop) + Only(b, drop)
  {
    if b == [] {
      assert a + b == a;
    } else {
      assert (a + b)[..|a + b| - 1] == a + b[..|b| - 1];
      RemovedAppend(a, b[..|b| - 1], drop);
    }
  }

  /** Filtering splits a sequence: every element is kept or removed, and
      membership is exactly as the set says. */
  lemma {:induction false} RemovedSplit<T>(s: seq<T>, drop: set<T>)
    ensures |Removed(s, drop)| + |Only(s, drop)| == |s|
    ensures forall x :: x in Removed(s, drop) <==> x in s && x !in drop
    ensures forall x :: x in Only(s, drop) <==> x in s && x in drop
  {
    if s != [] {
      RemovedSplit(s[..|s| - 1], drop);
      assert s == s[..|s| - 1] + [s[|s| - 1]];
    }
  }

  lemma {:induction false} RemovedDistinct<T>(s: seq<T>, drop: set<T>)
    requires Distinct(s)
    ensures Distinct(Removed(s, drop)) && Distinct(Only(s, drop))
  {
    if s != [] {
      var init := s[..|s| - 1];
      RemovedDistinct(init, drop);
      RemovedSplit(init, drop);
      assert s[|s| - 1] !in init;
    }
  }

  /** Nothing to remove leaves the sequence as it is. */
  lemma {:induction false} RemovedNothing<T>(s: seq<T>, drop: set<T>)
    requires forall i :: 0 <= i < |s| ==> s[i] !in drop
    ensures Removed(s, drop) == s
    ensures Only(s, drop) == []
  {
    if s != [] {
      RemovedNothing(s[..|s| - 1], drop);
    }
  }

  /** `m` without the keys listed in `t`, deleted one after another. */
  function RemoveKeys<K(==), V>(m: map<K, V>, t: seq<K>): map<K, V> {
    if t == [] then m else RemoveKeys(m, t[..|t| - 1]) - {t[|t| - 1]}
  }

  lemma {:induction false} RemoveKeysSpec<K, V>(m: map<K, V>, t: seq<K>)
    ensures forall k :: k in RemoveKeys(m, t) <==> k in m && k !in t
    ensures forall k :: k in RemoveKeys(m, t) ==> RemoveKeys(m, t)[k] == m[k]
  {
    if t != [] {
      RemoveKeysSpec(m, t[..|t| - 1]);
      assert t == t[..|t| - 1] + [t[|t| - 1]];
    }
  }

  /** `[...s.slice(1), s[0]]`: the head moves to the tail. */
  function Rotated<T>(s: seq<T>): (r: seq<T>)
    requires |s| > 0
  {
    s[1..] + [s[0]]
  }

  /** A rotation is a permutation that keeps the order of the tail. */
  lemma RotatedPermutation<T>(s: seq<T>)
    requires |s| > 0
    ensures |Rotated(s)| == |s|
    ensures multiset(Rotated(s)) == multiset(s)
    ensures Rotated(s)[..|s| - 1] == s[1..] && Rotated(s)[|s| - 1] == s[0]
  {
    assert s == [s[0]] + s[1..];
  }

  function RotatedTimes<T>(s: seq<T>, n: nat): seq<T>
    requires |s| > 0
  {
    if n == 0 then s else Rotated(RotatedTimes(s, n - 1))
  }

  /** `n` rotations move the first `n` elements to the back, in order, so
      `|s|` rotations give the queue back: every feed comes round once. */
  lemma {:induction false} RotatedTimesSplit<T>(s: seq<T>, n: nat)
    requires 0 < |s| && n <= |s|
    ensures |RotatedTimes(s, n)| == |s|
    ensures RotatedTimes(s, n) == s[n..] + s[..n]
  {
    if n > 0 {
      RotatedTimesSplit(s, n - 1);
      var p := RotatedTimes(s, n - 1);
      assert p == s[n - 1..] + s[..n - 1];
      assert p[0] == s[n - 1];
      assert p[1..] == s[n..] + s[..n - 1];
      assert s[..n] == s[..n - 1] + [s[n - 1]];
    }
  }

  lemma FullRotation<T>(s: seq<T>)
    requires |s| > 0
    ensures RotatedTimes(s, |s|) == s
  {
    RotatedTimesSplit(s, |s|);
    assert s[|s|..] + s[..|s|] == s;
  }

  /** Reversal keeps the elements. */
  lemma ReverseHas<T>(s: seq<T>)
    ensures forall x :: x in Reverse(s) <==> x in s
  {
    var r := Reverse(s);
    forall x | x in s ensures x in r {
      var i :| 0 <= i < |s| && s[i] == x;
      assert r[|s| - 1 - i] == x;
    }
  }

  function Reverse<T>(s: seq<T>): (r: seq<T>)
    ensures |r| == |s|
    ensures forall i :: 0 <= i < |s| ==> r[i] == s[|s| - 1 - i]
  {
    if s == [] then [] else [s[|s| - 1]] + Reverse(s[..|s| - 1])
  }
}
