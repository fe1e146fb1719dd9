/**
 * The retention policy of the single-tree mode:
 * `info_list.sort(key=lambda x: (not (marker in path), len(title)), reverse=True)`.
 * Python's sort is stable also with `reverse=True`, so the result is the
 * group ordered by non-increasing key with equal keys in scan order; index 0
 * is the record that is kept.
 */
module Retention {
  import opened FileSystem
  import opened Records

  /** The two folder names that mark an automatic Google Photos export. */
  const GooglePhotosMarker: string := "Google Photos"
  const GooglePhotosKoreanMarker: string := "Google \U{D3EC}\U{D1A0}"

  predicate OccursAt(s: string, sub: string, i: nat) {
    i + |sub| <= |s| && s[i..i + |sub|] == sub
  }

  /** An occurrence in `s` past its first character is an occurrence in `s[1..]`. */
  lemma ShiftOccurrence(s: string, sub: string, i: nat)
    requires 1 <= |s|
    ensures OccursAt(s, sub, i + 1) <==> OccursAt(s[1..], sub, i)
  {
    if i + 1 + |sub| <= |s| {
      assert s[1..][i..i + |sub|] == s[i + 1..i + 1 + |sub|];
    }
  }

  /** Python's `sub in s` on strings. */
  predicate Contains(s: string, sub: string)
    decreases |s|
  {
    |sub| <= |s| && (s[..|sub|] == sub || Contains(s[1..], sub))
  }

  /** `Contains` holds exactly when `sub` occurs somewhere in `s`. */
  lemma {:induction false} ContainsOccurs(s: string, sub: string)
    ensures Contains(s, sub) <==> exists i: nat :: OccursAt(s, sub, i)
    decreases |s|
  {
    if |sub| <= |s| {
      if s[..|sub|] == sub {
        assert OccursAt(s, sub, 0);
      } else {
        ContainsOccurs(s[1..], sub);
        if Contains(s[1..], sub) {
          var i: nat :| OccursAt(s[1..], sub, i);
          ShiftOccurrence(s, sub, i);
        }
        if exists i: nat :: OccursAt(s, sub, i) {
          var i: nat :| OccursAt(s, sub, i);
          assert i != 0;
          ShiftOccurrence(s, sub, i - 1);
        }
      }
    }
  }

  predicate InGooglePhotos(path: Path) {
    Contains(path, GooglePhotosMarker) || Contains(path, GooglePhotosKoreanMarker)
  }

  /** The sort key `(not in Google Photos, len(title))`. */
  datatype Key = Key(outsideGoogle: bool, titleLength: nat)

  function KeyOf(r: Record): Key {
    Key(!InGooglePhotos(r.path), |r.title|)
  }

  /** Python's tuple order on keys, `a > b` (True ranks above False). */
  predicate Above(a: Key, b: Key) {
    (a.outsideGoogle && !b.outsideGoogle) || (a.outsideGoogle == b.outsideGoogle && a.titleLength > b.titleLength)
  }

  /** Ordered by non-increasing key: nothing ranks above an earlier record. */
  predicate SortedForRetention(s: seq<Record>) {
    forall i, j :: 0 <= i < j < |s| ==> !Above(KeyOf(s[j]), KeyOf(s[i]))
  }

  /** The records of `s` whose key is `k`, in order. */
  function WithKey(s: seq<Record>, k: Key): (r: seq<Record>)
    ensures forall x :: x in r ==> x in s && KeyOf(x) == k
  {
    if s == [] then [] else (if KeyOf(s[0]) == k then [s[0]] else []) + WithKey(s[1..], k)
  }

  /** Inserts `x` before the first record that does not rank above it. */
  function Insert(x: Record, s: seq<Record>): (r: seq<Record>)
    ensures multiset(r) == multiset(s) + multiset{x}
  {
    if s == [] || !Above(KeyOf(s[0]), KeyOf(x)) then
      [x] + s
    else
      assert s == [s[0]] + s[1..];
      [s[0]] + Insert(x, s[1..])
  }

  /** The group after `info_list.sort(key=..., reverse=True)`. */
  function RetentionSort(g: seq<Record>): (r: seq<Record>)
    ensures multiset(r) == multiset(g)
  {
    if g == [] then
      []
    else
      assert g == [g[0]] + g[1..];
      Insert(g[0], RetentionSort(g[1..]))
  }

  lemma {:induction false} InsertSorted(x: Record, s: seq<Record>)
    requires SortedForRetention(s)
    ensures SortedForRetention(Insert(x, s))
  {
    if s != [] && Above(KeyOf(s[0]), KeyOf(x)) {
      var rest := Insert(x, s[1..]);
      InsertSorted(x, s[1..]);
      var r := [s[0]] + rest;
      forall j | 0 < j < |r| ensures !Above(KeyOf(r[j]), KeyOf(s[0])) {
        assert r[j] == rest[j - 1];
        assert r[j] in multiset(rest);
        if r[j] != x {
          assert r[j] in multiset(s[1..]);
          var m :| 0 <= m < |s[1..]| && s[1..][m] == r[j];
          assert s[m + 1] == r[j];
        }
      }
      assert forall i, j :: 0 < i < j < |r| ==> r[i] == rest[i - 1] && r[j] == rest[j - 1];
    }
  }

  lemma {:induction false} InsertWithKey(x: Record, s: seq<Record>, k: Key)
    ensures WithKey(Insert(x, s), k) == (if KeyOf(x) == k then [x] else []) + WithKey(s, k)
  {
    if s == [] || !Above(KeyOf(s[0]), KeyOf(x)) {
      assert ([x] + s)[1..] == s;
    } else {
      var rest := Insert(x, s[1..]);
      InsertWithKey(x, s[1..], k);
      assert Insert(x, s) == [s[0]] + rest;
      assert ([s[0]] + rest)[1..] == rest;
      var head := if KeyOf(s[0]) == k then [s[0]] else [];
      var mid := if KeyOf(x) == k then [x] else [];
      assert KeyOf(s[0]) != KeyOf(x);
      calc {
        WithKey(Insert(x, s), k);
        head + WithKey(rest, k);
        head + (mid + WithKey(s[1..], k));
        { assert head == [] || mid == []; }
        mid + (head + WithKey(s[1..], k));
        mid + WithKey(s, k);
      }
    }
  }

  /** After the sort no record ranks above an earlier one. */
  lemma {:induction false} RetentionSortSorted(g: seq<Record>)
    ensures SortedForRetention(RetentionSort(g))
  {
    if g != [] {
      RetentionSortSorted(g[1..]);
      InsertSorted(g[0], RetentionSort(g[1..]));
    }
  }

  /** The sort is stable: the records with one key keep their scan order. */
  lemma {:induction false} RetentionSortStable(g: seq<Record>, k: Key)
    ensures WithKey(RetentionSort(g), k) == WithKey(g, k)
  {
    if g != [] {
      RetentionSortStable(g[1..], k);
      InsertWithKey(g[0], RetentionSort(g[1..]), k);
    }
  }

  /** The first record of `g` with key `k` heads `WithKey(g, k)`; none before it has that key. */
  lemma {:induction false} FirstWithKey(g: seq<Record>, k: Key)
    requires WithKey(g, k) != []
    ensures exists i :: 0 <= i < |g| && g[i] == WithKey(g, k)[0] && KeyOf(g[i]) == k
                        && forall j :: 0 <= j < i ==> KeyOf(g[j]) != k
  {
    if KeyOf(g[0]) != k {
      FirstWithKey(g[1..], k);
      var i :| 0 <= i < |g[1..]| && g[1..][i] == WithKey(g[1..], k)[0] && KeyOf(g[1..][i]) == k
               && forall j :: 0 <= j < i ==> KeyOf(g[1..][j]) != k;
      assert g[i + 1] == WithKey(g, k)[0];
      forall j | 0 <= j < i + 1 ensures KeyOf(g[j]) != k {
        if j > 0 { assert g[j] == g[1..][j - 1]; }
      }
    }
  }

  /**
   * The record kept (index 0 after the sort) is a member of the group; it is
   * outside the Google Photos folders whenever some member is; no member with
   * the same Google Photos status has a longer title; and it is the first
   * member in scan order with its key, every earlier one ranking strictly below.
   */
  lemma KeeperChoice(g: seq<Record>)
    requires |g| > 0
    ensures var keeper := RetentionSort(g)[0];
      && keeper in g
      && ((exists r :: r in g && !InGooglePhotos(r.path)) ==> !InGooglePhotos(keeper.path))
      && (forall r :: r in g && InGooglePhotos(r.path) == InGooglePhotos(keeper.path) ==> |r.title| <= |keeper.title|)
      && exists i :: 0 <= i < |g| && g[i] == keeper && forall j :: 0 <= j < i ==> Above(KeyOf(keeper), KeyOf(g[j]))
  {
    var sorted := RetentionSort(g);
    var keeper := sorted[0];
    RetentionSortSorted(g);
    assert keeper in multiset(sorted);
    forall r | r in g ensures !Above(KeyOf(r), KeyOf(keeper)) {
      assert r in multiset(g);
      var m :| 0 <= m < |sorted| && sorted[m] == r;
    }
    var K := KeyOf(keeper);
    RetentionSortStable(g, K);
    assert WithKey(sorted, K) == [keeper] + WithKey(sorted[1..], K);
    FirstWithKey(g, K);
    var i :| 0 <= i < |g| && g[i] == WithKey(g, K)[0] && KeyOf(g[i]) == K
             && forall j :: 0 <= j < i ==> KeyOf(g[j]) != K;
    forall j | 0 <= j < i ensures Above(K, KeyOf(g[j])) {
      assert g[j] in g;
    }
  }
}
