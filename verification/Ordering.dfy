/**
  The order every sort in the repository uses on identifiers (`compareStrings`) and the
  library sort itself: a stable sort by a comparator.
 */
module Ordering {
  import opened Sequences

  /** `left < right` on strings: the first differing character decides, a proper prefix is smaller. */
  predicate StringLess(a: string, b: string) {
    if b == [] then false
    else if a == [] then true
    else a[0] < b[0] || (a[0] == b[0] && StringLess(a[1..], b[1..]))
  }

  /** Two strings part after `n` characters: there the one ends, or has the smaller character. */
  ghost predicate PartsAt(a: string, b: string, n: nat) {
    n <= |a| && n < |b| && a[..n] == b[..n] && (n == |a| || a[n] < b[n])
  }

  lemma {:induction false} StringLessIff(a: string, b: string)
    ensures StringLess(a, b) <==> exists n :: PartsAt(a, b, n)
  {
    if b == [] {
    } else if a == [] {
      assert PartsAt(a, b, 0);
    } else if a[0] < b[0] {
      assert PartsAt(a, b, 0);
    } else {
      StringLessIff(a[1..], b[1..]);
      if n: nat :| PartsAt(a, b, n) {
        assert n > 0 && a[..n][0] == b[..n][0];
        assert a[1..][..n - 1] == a[..n][1..] && b[1..][..n - 1] == b[..n][1..];
        assert PartsAt(a[1..], b[1..], n - 1);
      }
      if m: nat :| a[0] == b[0] && PartsAt(a[1..], b[1..], m) {
        assert a[..m + 1] == [a[0]] + a[1..][..m] && b[..m + 1] == [b[0]] + b[1..][..m];
        assert PartsAt(a, b, m + 1);
      }
    }
  }

  lemma {:induction false} StringLessIrreflexive(a: string)
    ensures !StringLess(a, a)
  {
    if a != [] { StringLessIrreflexive(a[1..]); }
  }

  lemma {:induction false} StringLessTransitive(a: string, b: string, c: string)
    requires StringLess(a, b) && StringLess(b, c)
    ensures StringLess(a, c)
  {
    if a != [] && a[0] == b[0] && b[0] == c[0] {
      StringLessTransitive(a[1..], b[1..], c[1..]);
    }
  }

  lemma {:induction false} StringLessTotal(a: string, b: string)
    ensures StringLess(a, b) || a == b || StringLess(b, a)
  {
    if a != [] && b != [] && a[0] == b[0] {
      StringLessTotal(a[1..], b[1..]);
      assert a == [a[0]] + a[1..] && b == [b[0]] + b[1..];
    }
  }

  /** Strictly ascending identifiers: sorted and without repeats. */
  ghost predicate Ascending(ids: seq<string>) {
    forall i, j :: 0 <= i < j < |ids| ==> StringLess(ids[i], ids[j])
  }

  /** Two ascending lists of the same identifiers are the same list. */
  lemma {:induction false} AscendingUnique(a: seq<string>, b: seq<string>)
    requires Ascending(a) && Ascending(b)
    requires forall x :: x in a <==> x in b
    ensures a == b
  {
    assert b != [] ==> b[0] in b;
    if a != [] {
      assert a[0] in b;
      assert b[0] in a;
      if a[0] != b[0] {
        StringLessTransitive(a[0], b[0], a[0]);
        StringLessIrreflexive(a[0]);
      }
      forall x ensures x in a[1..] <==> x in b[1..] {
        if x in a[1..] && x == a[0] { StringLessIrreflexive(x); }
        if x in b[1..] && x == b[0] { StringLessIrreflexive(x); }
        assert x in a <==> x in [a[0]] + a[1..];
        assert x in b <==> x in [b[0]] + b[1..];
      }
      AscendingUnique(a[1..], b[1..]);
      assert a == [a[0]] + a[1..] && b == [b[0]] + b[1..];
    }
  }

  // ---- The library sort ----

  /** `before(x, y)` is "the comparator of x and y is negative". */
  ghost predicate WeakOrder<T(!new)>(before: (T, T) -> bool) {
    && (forall x :: !before(x, x))
    && (forall x, y, z :: before(x, y) && before(y, z) ==> before(x, z))
    && (forall x, y, z :: before(x, z) ==> before(x, y) || before(y, z))
  }

  function InsertBy<T>(before: (T, T) -> bool, x: T, s: seq<T>): seq<T> {
    if s == [] || !before(s[0], x) then [x] + s else [s[0]] + InsertBy(before, x, s[1..])
  }

  /** `Array.prototype.sort`: a stable sort. */
  function SortBy<T>(before: (T, T) -> bool, s: seq<T>): seq<T> {
    if s == [] then [] else InsertBy(before, s[0], SortBy(before, s[1..]))
  }

  /** What the comparator does not tell from `x`, in the order it is listed in. */
  ghost function TiedWith<T>(before: (T, T) -> bool, x: T, s: seq<T>): seq<T> {
    if s == [] then []
    else (if !before(x, s[0]) && !before(s[0], x) then [s[0]] else []) + TiedWith(before, x, s[1..])
  }

  lemma {:induction false} InsertByTied<T(!new)>(before: (T, T) -> bool, x: T, y: T, s: seq<T>)
    requires WeakOrder(before)
    ensures TiedWith(before, x, InsertBy(before, y, s)) == TiedWith(before, x, [y] + s)
  {
    assert ([y] + s)[1..] == s;
    if s != [] && before(s[0], y) {
      var rest := s[1..];
      InsertByTied(before, x, y, rest);
      assert ([s[0]] + InsertBy(before, y, rest))[1..] == InsertBy(before, y, rest);
      assert ([y] + rest)[1..] == rest;
    }
  }

  /** Sorting is stable: what the comparator does not tell apart keeps its order. */
  lemma {:induction false} SortByStable<T(!new)>(before: (T, T) -> bool, x: T, s: seq<T>)
    requires WeakOrder(before)
    ensures TiedWith(before, x, SortBy(before, s)) == TiedWith(before, x, s)
  {
    if s != [] {
      var rest := s[1..];
      SortByStable(before, x, rest);
      InsertByTied(before, x, s[0], SortBy(before, rest));
      assert ([s[0]] + SortBy(before, rest))[1..] == SortBy(before, rest);
      assert s == [s[0]] + rest;
    }
  }

  ghost predicate SortedBy<T>(before: (T, T) -> bool, s: seq<T>) {
    forall i, j :: 0 <= i < j < |s| ==> !before(s[j], s[i])
  }

  lemma {:induction false} InsertByMultiset<T>(before: (T, T) -> bool, x: T, s: seq<T>)
    ensures multiset(InsertBy(before, x, s)) == multiset(s) + multiset{x}
  {
    if s != [] && before(s[0], x) {
      InsertByMultiset(before, x, s[1..]);
      assert s == [s[0]] + s[1..];
    }
  }

  lemma {:induction false} SortByMultiset<T>(before: (T, T) -> bool, s: seq<T>)
    ensures multiset(SortBy(before, s)) == multiset(s)
  {
    if s != [] {
      SortByMultiset(before, s[1..]);
      InsertByMultiset(before, s[0], SortBy(before, s[1..]));
      assert s == [s[0]] + s[1..];
    }
  }

  lemma SortByMembers<T>(before: (T, T) -> bool, s: seq<T>)
    ensures |SortBy(before, s)| == |s|
    ensures forall x :: x in SortBy(before, s) <==> x in s
  {
    SortByMultiset(before, s);
    assert |multiset(SortBy(before, s))| == |multiset(s)|;
    forall x ensures x in SortBy(before, s) <==> x in s {
      assert x in multiset(SortBy(before, s)) <==> x in multiset(s);
    }
  }

  lemma {:induction false} InsertBySorted<T(!new)>(before: (T, T) -> bool, x: T, s: seq<T>)
    requires WeakOrder(before) && SortedBy(before, s)
    ensures SortedBy(before, InsertBy(before, x, s))
  {
    if s != [] {
      if before(s[0], x) {
        InsertBySorted(before, x, s[1..]);
        InsertByMultiset(before, x, s[1..]);
        var r := InsertBy(before, x, s[1..]);
        forall j | 0 <= j < |r| ensures !before(r[j], s[0]) {
          assert r[j] in multiset(r);
          assert r[j] in s[1..] || r[j] == x;
        }
      } else {
        var first := s[0];
        forall j | 0 <= j < |s| ensures !before(s[j], x) {
          var y := s[j];
          assert before(y, x) ==> before(y, first) || before(first, x);
        }
      }
    }
  }

  lemma {:induction false} SortBySorted<T(!new)>(before: (T, T) -> bool, s: seq<T>)
    requires WeakOrder(before)
    ensures SortedBy(before, SortBy(before, s))
  {
    if s != [] {
      SortBySorted(before, s[1..]);
      InsertBySorted(before, s[0], SortBy(before, s[1..]));
    }
  }

  // ---- sortedUnique ----

  lemma StringLessWeakOrder()
    ensures WeakOrder(StringLess)
  {
    forall x ensures !StringLess(x, x) { StringLessIrreflexive(x); }
    forall x, y, z | StringLess(x, y) && StringLess(y, z) ensures StringLess(x, z) {
      StringLessTransitive(x, y, z);
    }
    forall x, y, z | StringLess(x, z) ensures StringLess(x, y) || StringLess(y, z) {
      StringLessTotal(x, y);
      if StringLess(y, x) { StringLessTransitive(y, x, z); }
    }
  }

  /** `[...new Set(values)]`: the first occurrence of every value. */
  function Dedup(values: seq<string>): (r: seq<string>)
    ensures forall x :: x in r <==> x in values
    ensures forall i, j :: 0 <= i < j < |r| ==> r[i] != r[j]
  {
    if values == [] then []
    else
      var rest := Dedup(values[..|values| - 1]);
      var x := values[|values| - 1];
      assert values == values[..|values| - 1] + [x];
      if x in rest then rest else rest + [x]
  }

  function SortedUnique(values: seq<string>): seq<string> {
    SortBy(StringLess, Dedup(values))
  }

  lemma SortedUniqueAscending(values: seq<string>)
    ensures Ascending(SortedUnique(values))
    ensures forall x :: x in SortedUnique(values) <==> x in values
  {
    var d, r := Dedup(values), SortedUnique(values);
    StringLessWeakOrder();
    SortBySorted(StringLess, d);
    SortByMembers(StringLess, d);
    SortByMultiset(StringLess, d);
    forall i, j | 0 <= i < j < |r| ensures StringLess(r[i], r[j]) {
      NoRepeatCount(d, r[i]);
      if r[i] == r[j] { CountTwice(r, i, j); }
      StringLessTotal(r[i], r[j]);
    }
  }

  lemma CountTwice<T>(s: seq<T>, i: nat, j: nat)
    requires i < j < |s| && s[i] == s[j]
    ensures multiset(s)[s[i]] >= 2
  {
    assert s == s[..j] + [s[j]] + s[j + 1..];
    assert s[i] in s[..j];
  }

  lemma {:induction false} NoRepeatCount<T>(s: seq<T>, x: T)
    requires forall i, j :: 0 <= i < j < |s| ==> s[i] != s[j]
    ensures multiset(s)[x] <= 1
  {
    if s != [] {
      NoRepeatCount(s[1..], x);
      assert s == [s[0]] + s[1..];
    }
  }

  /** An ascending list is its own sorted-unique form. */
  lemma SortedUniqueIdentity(ids: seq<string>)
    requires Ascending(ids)
    ensures SortedUnique(ids) == ids
  {
    SortedUniqueAscending(ids);
    AscendingUnique(SortedUnique(ids), ids);
  }

  // ---- Keys of a list, and sorting by key ----

  function KeysOf<T>(key: T -> string, s: seq<T>): (r: seq<string>)
    ensures |r| == |s| && forall i :: 0 <= i < |s| ==> r[i] == key(s[i])
  {
    if s == [] then [] else [key(s[0])] + KeysOf(key, s[1..])
  }

  ghost predicate Repeats<T>(key: T -> string, s: seq<T>, x: string) {
    exists i, j :: 0 <= i < j < |s| && key(s[i]) == x && key(s[j]) == x
  }

  ghost predicate DistinctKeys<T>(key: T -> string, s: seq<T>) {
    forall i, j :: 0 <= i < j < |s| ==> key(s[i]) != key(s[j])
  }

  lemma CountedTwice<T>(s: seq<T>, x: T) returns (i: nat, j: nat)
    requires multiset(s)[x] >= 2
    ensures i < j < |s| && s[i] == x && s[j] == x
  {
    var k :| 0 <= k < |s| && s[k] == x;
    assert s == s[..k] + [x] + s[k + 1..];
    if x in s[..k] {
      i, j :| 0 <= i < |s[..k]| && s[..k][i] == x && j == k;
    } else {
      assert x in s[k + 1..];
      var m :| 0 <= m < |s[k + 1..]| && s[k + 1..][m] == x;
      i, j := k, k + 1 + m;
    }
  }

  lemma RepeatsCount<T>(key: T -> string, s: seq<T>, x: string)
    ensures Repeats(key, s, x) <==> multiset(KeysOf(key, s))[x] >= 2
  {
    var keys := KeysOf(key, s);
    if Repeats(key, s, x) {
      var i, j :| 0 <= i < j < |s| && key(s[i]) == x && key(s[j]) == x;
      CountTwice(keys, i, j);
    }
    if multiset(keys)[x] >= 2 {
      var i, j := CountedTwice(keys, x);
    }
  }

  lemma {:induction false} InsertKeys<T>(before: (T, T) -> bool, key: T -> string, x: T, s: seq<T>)
    ensures multiset(KeysOf(key, InsertBy(before, x, s))) == multiset(KeysOf(key, s)) + multiset{key(x)}
  {
    if s != [] && before(s[0], x) { InsertKeys(before, key, x, s[1..]); }
  }

  lemma {:induction false} SortKeys<T>(before: (T, T) -> bool, key: T -> string, s: seq<T>)
    ensures multiset(KeysOf(key, SortBy(before, s))) == multiset(KeysOf(key, s))
  {
    if s != [] {
      SortKeys(before, key, s[1..]);
      InsertKeys(before, key, s[0], SortBy(before, s[1..]));
    }
  }

  /** Sorting neither creates nor removes a repeated key. */
  lemma SortRepeats<T>(before: (T, T) -> bool, key: T -> string, s: seq<T>)
    ensures forall x :: Repeats(key, SortBy(before, s), x) <==> Repeats(key, s, x)
    ensures DistinctKeys(key, SortBy(before, s)) <==> DistinctKeys(key, s)
  {
    SortKeys(before, key, s);
    forall x ensures Repeats(key, SortBy(before, s), x) <==> Repeats(key, s, x) {
      RepeatsCount(key, s, x);
      RepeatsCount(key, SortBy(before, s), x);
    }
    DistinctIffNoRepeats(key, s);
    DistinctIffNoRepeats(key, SortBy(before, s));
  }

  lemma DistinctIffNoRepeats<T>(key: T -> string, s: seq<T>)
    ensures DistinctKeys(key, s) <==> forall x :: !Repeats(key, s, x)
  {
    if !DistinctKeys(key, s) {
      var i, j :| 0 <= i < j < |s| && key(s[i]) == key(s[j]);
      assert Repeats(key, s, key(s[i]));
    }
  }

  lemma KeysConcat<T>(key: T -> string, s: seq<T>, t: seq<T>)
    ensures KeysOf(key, s + t) == KeysOf(key, s) + KeysOf(key, t)
  {
    var x, y := KeysOf(key, s + t), KeysOf(key, s) + KeysOf(key, t);
    forall i | 0 <= i < |x| ensures x[i] == y[i] {}
  }

  /** Two lists of the same entries in another order have the same keys, as often. */
  lemma {:induction false} KeysPermuted<T>(key: T -> string, s: seq<T>, t: seq<T>)
    requires multiset(s) == multiset(t)
    ensures multiset(KeysOf(key, s)) == multiset(KeysOf(key, t))
    decreases |s|
  {
    if s == [] {
      SameLength(s, t);
    } else {
      var k := TakenOut(s, t);
      KeysPermuted(key, s[1..], t[..k] + t[k + 1..]);
      KeysAround(key, [], s[0], s[1..]);
      KeysAround(key, t[..k], s[0], t[k + 1..]);
      assert s == [] + [s[0]] + s[1..] && [] + s[1..] == s[1..];
    }
  }

  lemma KeysAround<T>(key: T -> string, before: seq<T>, x: T, after: seq<T>)
    ensures multiset(KeysOf(key, before + [x] + after)) == multiset(KeysOf(key, before + after)) + multiset{key(x)}
  {
    KeysConcat(key, before + [x], after);
    KeysConcat(key, before, [x]);
    KeysConcat(key, before, after);
    assert KeysOf(key, [x]) == [key(x)];
  }

  lemma SameLength<T>(s: seq<T>, t: seq<T>)
    requires multiset(s) == multiset(t)
    ensures |s| == |t|
  {
    assert |multiset(s)| == |s| && |multiset(t)| == |t|;
  }

  /** Where the first of one list stands in the other; the rest are still the same entries. */
  lemma TakenOut<T>(s: seq<T>, t: seq<T>) returns (k: nat)
    requires multiset(s) == multiset(t) && s != []
    ensures k < |t| && t == t[..k] + [s[0]] + t[k + 1..]
    ensures multiset(t[..k] + t[k + 1..]) == multiset(s[1..])
  {
    FirstInOther(s, t);
    k :| 0 <= k < |t| && t[k] == s[0];
    assert t == t[..k] + [s[0]] + t[k + 1..];
    RestInOther(s, t, k);
  }

  lemma FirstInOther<T>(s: seq<T>, t: seq<T>)
    requires multiset(s) == multiset(t) && s != []
    ensures s[0] in t
  {
    assert s[0] in multiset(s);
  }

  lemma RestInOther<T>(s: seq<T>, t: seq<T>, k: nat)
    requires multiset(s) == multiset(t) && s != [] && k < |t| && t == t[..k] + [s[0]] + t[k + 1..]
    ensures multiset(t[..k] + t[k + 1..]) == multiset(s[1..])
  {
    assert s == [] + [s[0]] + s[1..] && [] + s[1..] == s[1..];
    CountsAround([], s[0], s[1..]);
    CountsAround(t[..k], s[0], t[k + 1..]);
    OneLess(multiset(t[..k] + t[k + 1..]), multiset(s[1..]), s[0]);
  }

  lemma CountsAround<T>(before: seq<T>, x: T, after: seq<T>)
    ensures multiset(before + [x] + after) == multiset(before + after) + multiset{x}
  {}

  lemma OneLess<T>(a: multiset<T>, b: multiset<T>, x: T)
    requires a + multiset{x} == b + multiset{x}
    ensures a == b
  {
    assert a == (a + multiset{x}) - multiset{x} && b == (b + multiset{x}) - multiset{x};
  }

  lemma DistinctPermuted<T>(key: T -> string, s: seq<T>, t: seq<T>)
    requires multiset(s) == multiset(t)
    ensures DistinctKeys(key, s) <==> DistinctKeys(key, t)
  {
    KeysPermuted(key, s, t);
    forall x ensures Repeats(key, s, x) <==> Repeats(key, t, x) {
      RepeatsCount(key, s, x);
      RepeatsCount(key, t, x);
    }
    DistinctIffNoRepeats(key, s);
    DistinctIffNoRepeats(key, t);
  }

  lemma DistinctKeysAppend<T>(key: T -> string, s: seq<T>, x: T)
    ensures DistinctKeys(key, s + [x]) <==> DistinctKeys(key, s) && forall y :: y in s ==> key(y) != key(x)
  {
    var all := s + [x];
    if DistinctKeys(key, all) {
      forall i, j | 0 <= i < j < |s| ensures key(s[i]) != key(s[j]) { assert key(all[i]) != key(all[j]); }
      forall y | y in s ensures key(y) != key(x) {
        var i :| 0 <= i < |s| && s[i] == y;
        assert key(all[i]) != key(all[|s|]);
      }
    }
  }

  /** Compare by a string key. */
  function ByKey<T>(key: T -> string): (T, T) -> bool {
    (a, b) => StringLess(key(a), key(b))
  }

  lemma ByKeySorted<T(!new)>(key: T -> string, s: seq<T>)
    ensures SortedBy(ByKey(key), SortBy(ByKey(key), s))
  {
    var before := ByKey(key);
    StringLessWeakOrder();
    assert forall x, y :: before(x, y) <==> StringLess(key(x), key(y));
    assert WeakOrder(before);
    SortBySorted(before, s);
  }

  /** An identifier at or after every member of an ascending list, and not a member, extends it. */
  lemma AscendingAppend(ids: seq<string>, x: string)
    requires Ascending(ids) && x !in ids
    requires forall y :: y in ids ==> !StringLess(x, y)
    ensures Ascending(ids + [x])
  {
    forall i | 0 <= i < |ids| ensures StringLess(ids[i], x) {
      assert ids[i] in ids;
      StringLessTotal(ids[i], x);
    }
  }

  // ---- A sorted list is determined by its members ----

  ghost predicate TotalOn<T(!new)>(before: (T, T) -> bool, s: seq<T>) {
    forall x, y :: x in s && y in s && x != y ==> before(x, y) || before(y, x)
  }

  lemma {:induction false} SortedMembersUnique<T(!new)>(before: (T, T) -> bool, s: seq<T>, t: seq<T>)
    requires SortedBy(before, s) && SortedBy(before, t) && NoRepeats(s) && NoRepeats(t) && TotalOn(before, s)
    requires forall x :: x in s <==> x in t
    ensures s == t
  {
    assert t != [] ==> t[0] in s;
    if s != [] {
      assert s[0] in t && t != [];
      FirstIsSame(before, s, t);
      forall x ensures x in s[1..] <==> x in t[1..] {
        assert x in s <==> x == s[0] || x in s[1..];
        assert x in t <==> x == t[0] || x in t[1..];
      }
      SortedMembersUnique(before, s[1..], t[1..]);
      assert s == [s[0]] + s[1..] && t == [t[0]] + t[1..];
    }
  }

  lemma FirstIsSame<T(!new)>(before: (T, T) -> bool, s: seq<T>, t: seq<T>)
    requires SortedBy(before, s) && SortedBy(before, t) && TotalOn(before, s)
    requires s != [] && t != [] && s[0] in t && t[0] in s
    ensures s[0] == t[0]
  {
    var i :| 0 <= i < |t| && t[i] == s[0];
    var j :| 0 <= j < |s| && s[j] == t[0];
    assert i > 0 ==> !before(t[i], t[0]);
    assert j > 0 ==> !before(s[j], s[0]);
  }

  lemma DistinctKeysNoRepeats<T>(key: T -> string, s: seq<T>)
    requires DistinctKeys(key, s)
    ensures NoRepeats(s)
  {
    forall i, j | 0 <= i < j < |s| ensures s[i] != s[j] { assert key(s[i]) != key(s[j]); }
  }

  // ---- The keys of a map as a list ----

  ghost function Listed(keys: set<string>): (names: seq<string>)
    ensures forall k :: k in names <==> k in keys
    ensures forall i, j :: 0 <= i < j < |names| ==> names[i] != names[j]
  {
    if keys == {} then []
    else
      var k :| k in keys;
      [k] + Listed(keys - {k})
  }

  /** `[...keys].sort()`. */
  ghost function SortedKeys(keys: set<string>): (names: seq<string>)
    ensures Ascending(names) && forall k :: k in names <==> k in keys
  {
    SortedUniqueAscending(Listed(keys));
    SortedUnique(Listed(keys))
  }
}
