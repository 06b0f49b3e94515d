/** Query building blocks shared by the tables: a `WHERE` filter over rows
    in scan order, and an `ORDER BY` on one integer column that keeps rows
    with equal keys in scan order (a stable sort). */
module Rows {
  import opened Wrappers

  /** `WHERE p`: the rows satisfying `p`, in their original order. */
  function Filter<T>(s: seq<T>, p: T -> bool): (r: seq<T>)
    ensures |r| <= |s|
  {
    if s == [] then []
    else
      assert s == [s[0]] + s[1..];
      if p(s[0]) then [s[0]] + Filter(s[1..], p) else Filter(s[1..], p)
  }

  /** The filter keeps exactly the rows satisfying `p`, never adding one. */
  lemma {:induction false} FilterMembers<T>(s: seq<T>, p: T -> bool)
    ensures forall i :: 0 <= i < |Filter(s, p)| ==> p(Filter(s, p)[i]) && Filter(s, p)[i] in s
    ensures forall i :: 0 <= i < |s| && p(s[i]) ==> s[i] in Filter(s, p)
    ensures multiset(Filter(s, p)) <= multiset(s)
    decreases |s|
  {
    if s != [] {
      FilterMembers(s[1..], p);
      assert s == [s[0]] + s[1..];
      var f := Filter(s[1..], p);
      forall i | 0 <= i < |Filter(s, p)|
        ensures p(Filter(s, p)[i]) && Filter(s, p)[i] in s
      {
        if p(s[0]) && i > 0 {
          assert Filter(s, p)[i] == f[i - 1];
        }
      }
      forall i | 0 <= i < |s| && p(s[i])
        ensures s[i] in Filter(s, p)
      {
        if i > 0 {
          assert s[i] == s[1..][i - 1];
        }
      }
    }
  }

  lemma {:induction false} FilterAppend<T>(a: seq<T>, b: seq<T>, p: T -> bool)
    ensures Filter(a + b, p) == Filter(a, p) + Filter(b, p)
    decreases |a|
  {
    if a == [] {
      assert a + b == b;
    } else {
      assert (a + b)[1..] == a[1..] + b;
      FilterAppend(a[1..], b, p);
    }
  }

  /** `a` is `b` with some rows left out, the rest in the same order. */
  predicate Subsequence<T(==)>(a: seq<T>, b: seq<T>)
    decreases |b|
  {
    if a == [] then true
    else if b == [] then false
    else if a[0] == b[0] then Subsequence(a[1..], b[1..])
    else Subsequence(a, b[1..])
  }

  lemma {:induction false} SubsequenceTail<T>(a: seq<T>, b: seq<T>)
    requires a != [] && Subsequence(a, b)
    ensures Subsequence(a[1..], b)
    decreases |b|, 1
  {
    if a[0] != b[0] {
      SubsequenceTail(a, b[1..]);
    }
    SubsequenceWeaken(a[1..], b);
  }

  /** A subsequence of `b[1..]` is one of `b`. */
  lemma {:induction false} SubsequenceWeaken<T>(a: seq<T>, b: seq<T>)
    requires b != [] && Subsequence(a, b[1..])
    ensures Subsequence(a, b)
    decreases |b|, 0
  {
    if a != [] && a[0] == b[0] {
      SubsequenceTail(a, b[1..]);
    }
  }

  lemma {:induction false} FilterIsSubsequence<T>(s: seq<T>, p: T -> bool)
    ensures Subsequence(Filter(s, p), s)
    decreases |s|
  {
    if s != [] {
      FilterIsSubsequence(s[1..], p);
      assert s == [s[0]] + s[1..];
      if p(s[0]) {
        assert Filter(s, p) == [s[0]] + Filter(s[1..], p);
        assert Filter(s, p)[1..] == Filter(s[1..], p);
      } else {
        SubsequenceWeaken(Filter(s, p), s);
      }
    }
  }

  /** Filtering twice keeps the rows that pass both tests. */
  lemma {:induction false} FilterFilter<T>(s: seq<T>, p: T -> bool, q: T -> bool, pq: T -> bool)
    requires forall x :: pq(x) == (p(x) && q(x))
    ensures Filter(Filter(s, p), q) == Filter(s, pq)
    decreases |s|
  {
    if s != [] {
      FilterFilter(s[1..], p, q, pq);
      if p(s[0]) {
        assert Filter(s, p) == [s[0]] + Filter(s[1..], p);
        assert Filter(s, p)[1..] == Filter(s[1..], p);
      }
    }
  }

  /** Ascending by `key`. */
  predicate SortedBy<T>(s: seq<T>, key: T -> int) {
    forall i, j :: 0 <= i < j < |s| ==> key(s[i]) <= key(s[j])
  }

  lemma {:induction false} ConsSorted<T>(x: T, s: seq<T>, key: T -> int)
    requires SortedBy(s, key) && (s != [] ==> key(x) <= key(s[0]))
    ensures SortedBy([x] + s, key)
  {
    var r := [x] + s;
    forall i, j | 0 <= i < j < |r| ensures key(r[i]) <= key(r[j]) {
      if i == 0 && j > 1 {
        assert key(s[0]) <= key(s[j - 1]);
      }
    }
  }

  /** Puts `x` in front of the first row whose key is not smaller. */
  function InsertBy<T>(x: T, s: seq<T>, key: T -> int): (r: seq<T>)
    ensures |r| == |s| + 1 && r != []
    ensures key(r[0]) == if s == [] || key(x) <= key(s[0]) then key(x) else key(s[0])
  {
    if s == [] || key(x) <= key(s[0]) then [x] + s
    else
      assert s == [s[0]] + s[1..];
      [s[0]] + InsertBy(x, s[1..], key)
  }

  /** Inserting adds exactly the one row. */
  lemma {:induction false} InsertByMultiset<T>(x: T, s: seq<T>, key: T -> int)
    ensures multiset(InsertBy(x, s, key)) == multiset(s) + multiset{x}
    decreases |s|
  {
    if s != [] && key(x) > key(s[0]) {
      InsertByMultiset(x, s[1..], key);
      assert s == [s[0]] + s[1..];
    }
  }

  lemma {:induction false} InsertBySorted<T>(x: T, s: seq<T>, key: T -> int)
    requires SortedBy(s, key)
    ensures SortedBy(InsertBy(x, s, key), key)
    decreases |s|
  {
    if s == [] || key(x) <= key(s[0]) {
      ConsSorted(x, s, key);
    } else {
      InsertBySorted(x, s[1..], key);
      ConsSorted(s[0], InsertBy(x, s[1..], key), key);
    }
  }

  /** `ORDER BY key ASC`, ties kept in scan order. */
  function SortBy<T>(s: seq<T>, key: T -> int): (r: seq<T>)
    ensures SortedBy(r, key)
    ensures multiset(r) == multiset(s)
    ensures |r| == |s|
  {
    if s == [] then []
    else
      assert s == [s[0]] + s[1..];
      InsertBySorted(s[0], SortBy(s[1..], key), key);
      InsertByMultiset(s[0], SortBy(s[1..], key), key);
      InsertBy(s[0], SortBy(s[1..], key), key)
  }

  /** A filter keeps a sorted sequence sorted. */
  lemma {:induction false} FilterSorted<T>(s: seq<T>, key: T -> int, p: T -> bool)
    requires SortedBy(s, key)
    ensures SortedBy(Filter(s, p), key)
    ensures Filter(s, p) != [] && s != [] ==> key(s[0]) <= key(Filter(s, p)[0])
    decreases |s|
  {
    if s != [] {
      FilterSorted(s[1..], key, p);
      var f := Filter(s[1..], p);
      if f != [] {
        FilterMembers(s[1..], p);
        assert f[0] in s[1..];
        var k :| 0 <= k < |s[1..]| && s[1..][k] == f[0];
        assert key(s[0]) <= key(s[1 + k]);
      }
      if p(s[0]) {
        ConsSorted(s[0], f, key);
      }
    }
  }

  lemma FilterInsertBy<T>(x: T, s: seq<T>, key: T -> int, p: T -> bool)
    requires SortedBy(s, key)
    ensures Filter(InsertBy(x, s, key), p)
         == if p(x) then InsertBy(x, Filter(s, p), key) else Filter(s, p)
  {
    if p(x) {
      FilterInsertKept(x, s, key, p);
    } else {
      FilterInsertDropped(x, s, key, p);
    }
  }

  /** A row the filter drops leaves no trace wherever it was inserted. */
  lemma {:induction false} FilterInsertDropped<T>(x: T, s: seq<T>, key: T -> int, p: T -> bool)
    requires !p(x)
    ensures Filter(InsertBy(x, s, key), p) == Filter(s, p)
    decreases |s|
  {
    if s == [] || key(x) <= key(s[0]) {
      FilterCons(x, s, p);
    } else {
      FilterInsertDropped(x, s[1..], key, p);
      FilterCons(s[0], InsertBy(x, s[1..], key), p);
      FilterCons(s[0], s[1..], p);
      assert s == [s[0]] + s[1..];
    }
  }

  /** A row the filter keeps lands in the same place among the kept rows. */
  lemma {:induction false} FilterInsertKept<T>(x: T, s: seq<T>, key: T -> int, p: T -> bool)
    requires SortedBy(s, key) && p(x)
    ensures Filter(InsertBy(x, s, key), p) == InsertBy(x, Filter(s, p), key)
    decreases |s|
  {
    if s == [] || key(x) <= key(s[0]) {
      FilterInsertFront(x, s, key, p);
    } else {
      assert SortedBy(s[1..], key);
      FilterInsertKept(x, s[1..], key, p);
      FilterInsertStep(x, s, key, p);
    }
  }

  lemma {:induction false} FilterInsertFront<T>(x: T, s: seq<T>, key: T -> int, p: T -> bool)
    requires SortedBy(s, key) && p(x)
    requires s == [] || key(x) <= key(s[0])
    ensures Filter(InsertBy(x, s, key), p) == InsertBy(x, Filter(s, p), key)
  {
    FilterCons(x, s, p);
    FilterSorted(s, key, p);
  }

  lemma {:induction false} FilterInsertStep<T>(x: T, s: seq<T>, key: T -> int, p: T -> bool)
    requires s != [] && key(x) > key(s[0]) && p(x)
    requires Filter(InsertBy(x, s[1..], key), p) == InsertBy(x, Filter(s[1..], p), key)
    ensures Filter(InsertBy(x, s, key), p) == InsertBy(x, Filter(s, p), key)
  {
    assert s == [s[0]] + s[1..];
    assert InsertBy(x, s, key) == [s[0]] + InsertBy(x, s[1..], key);
    FilterCons(s[0], InsertBy(x, s[1..], key), p);
    FilterCons(s[0], s[1..], p);
    if p(s[0]) {
      InsertByLater(x, s[0], Filter(s[1..], p), key);
    }
  }

  lemma {:induction false} FilterCons<T>(y: T, s: seq<T>, p: T -> bool)
    ensures Filter([y] + s, p) == if p(y) then [y] + Filter(s, p) else Filter(s, p)
  {
    assert ([y] + s)[1..] == s;
  }

  lemma {:induction false} InsertByLater<T>(x: T, y: T, s: seq<T>, key: T -> int)
    requires key(x) > key(y)
    ensures InsertBy(x, [y] + s, key) == [y] + InsertBy(x, s, key)
  {
    assert ([y] + s)[1..] == s;
  }

  /** Filtering commutes with the stable sort: filtering the ordered result
      gives the same rows, in the same order, as ordering the filtered rows. */
  lemma {:induction false} FilterSortBy<T>(s: seq<T>, key: T -> int, p: T -> bool)
    ensures Filter(SortBy(s, key), p) == SortBy(Filter(s, p), key)
    decreases |s|
  {
    if s != [] {
      FilterSortBy(s[1..], key, p);
      FilterInsertBy(s[0], SortBy(s[1..], key), key, p);
    }
  }

  /** Strictly ascending by `key`: the order of an integer primary key,
      which also makes the key unique. */
  predicate StrictlySortedBy<T>(s: seq<T>, key: T -> int) {
    forall i, j :: 0 <= i < j < |s| ==> key(s[i]) < key(s[j])
  }

  /** Inserting a new key into a strictly ascending sequence keeps it so. */
  lemma {:induction false} InsertByStrict<T>(x: T, s: seq<T>, key: T -> int)
    requires StrictlySortedBy(s, key)
    requires forall i :: 0 <= i < |s| ==> key(s[i]) != key(x)
    ensures StrictlySortedBy(InsertBy(x, s, key), key)
    decreases |s|
  {
    if s == [] || key(x) <= key(s[0]) {
      forall i | 0 <= i < |s| ensures key(x) < key(s[i]) {
        if i > 0 {
          assert key(s[0]) < key(s[i]);
        }
      }
      StrictCons(x, s, key);
    } else {
      InsertByStrict(x, s[1..], key);
      var rest := InsertBy(x, s[1..], key);
      InsertByMultiset(x, s[1..], key);
      forall i | 0 <= i < |rest| ensures key(s[0]) < key(rest[i]) {
        var y := rest[i];
        assert y in multiset(rest);
        if y != x {
          assert y in multiset(s[1..]);
          var k :| 0 <= k < |s[1..]| && s[1..][k] == y;
          assert key(s[0]) < key(s[1 + k]);
        }
      }
      StrictCons(s[0], rest, key);
    }
  }

  lemma StrictCons<T>(x: T, s: seq<T>, key: T -> int)
    requires StrictlySortedBy(s, key)
    requires forall i :: 0 <= i < |s| ==> key(x) < key(s[i])
    ensures StrictlySortedBy([x] + s, key)
  {
    var r := [x] + s;
    forall i, j | 0 <= i < j < |r| ensures key(r[i]) < key(r[j]) {
      assert r[j] == s[j - 1];
      if i > 0 {
        assert r[i] == s[i - 1];
      }
    }
  }

  /** A filter keeps a strictly ascending sequence strictly ascending. */
  lemma {:induction false} FilterStrictlySorted<T>(s: seq<T>, key: T -> int, p: T -> bool)
    requires StrictlySortedBy(s, key)
    ensures StrictlySortedBy(Filter(s, p), key)
    decreases |s|
  {
    if s != [] {
      FilterStrictlySorted(s[1..], key, p);
      if p(s[0]) {
        var f := Filter(s[1..], p);
        FilterMembers(s[1..], p);
        var r := [s[0]] + f;
        forall i, j | 0 <= i < j < |r| ensures key(r[i]) < key(r[j]) {
          if i == 0 {
            var k :| 0 <= k < |s[1..]| && s[1..][k] == f[j - 1];
            assert key(s[0]) < key(s[1 + k]);
          }
        }
      }
    }
  }

  // ---- Tables keyed by a primary key ----

  /** No two rows share a key. */
  predicate UniqueKeys<T, K(==)>(s: seq<T>, key: T -> K) {
    forall i, j :: 0 <= i < j < |s| ==> key(s[i]) != key(s[j])
  }

  /** `WHERE key <> k`. */
  function OtherKey<T, K(==)>(key: T -> K, k: K): T -> bool {
    (y: T) => key(y) != k
  }

  /** `INSERT OR REPLACE`: a row with the same key is deleted and the new
      row is stored after the others. */
  function Upsert<T, K(==)>(s: seq<T>, x: T, key: T -> K): seq<T> {
    Filter(s, OtherKey(key, key(x))) + [x]
  }

  /** `UPDATE ... WHERE key = key(x)`: every row with that key is rewritten
      in place; without one nothing changes. */
  function Replace<T, K(==)>(s: seq<T>, x: T, key: T -> K): (r: seq<T>)
    ensures |r| == |s|
    ensures forall i :: 0 <= i < |s| ==> r[i] == if key(s[i]) == key(x) then x else s[i]
  {
    seq(|s|, i requires 0 <= i < |s| => if key(s[i]) == key(x) then x else s[i])
  }

  /** `SELECT ... WHERE key = k`: the first row with that key, or none. */
  function FindBy<T, K(==)>(s: seq<T>, k: K, key: T -> K): (r: Option<T>)
    ensures r.Some? <==> exists i :: 0 <= i < |s| && key(s[i]) == k
    ensures r.Some? ==> r.value in s && key(r.value) == k
  {
    if s == [] then None
    else if key(s[0]) == k then Some(s[0])
    else
      assert forall i :: 1 <= i < |s| ==> s[i] == s[1..][i - 1];
      FindBy(s[1..], k, key)
  }

  /** With unique keys the row found under a key is the row stored under
      it. */
  lemma {:induction false} FindByUnique<T, K>(s: seq<T>, x: T, key: T -> K)
    requires UniqueKeys(s, key) && x in s
    ensures FindBy(s, key(x), key) == Some(x)
    decreases |s|
  {
    if s[0] != x {
      var j :| 0 <= j < |s| && s[j] == x;
      assert key(s[0]) != key(x) by { assert j != 0; }
      assert s[1..][j - 1] == x;
      FindByUnique(s[1..], x, key);
    }
  }

  lemma {:induction false} FilterUnique<T, K>(s: seq<T>, key: T -> K, p: T -> bool)
    requires UniqueKeys(s, key)
    ensures UniqueKeys(Filter(s, p), key)
    decreases |s|
  {
    if s != [] {
      var tail := s[1..];
      FilterUnique(tail, key, p);
      if p(s[0]) {
        var f := Filter(tail, p);
        FilterMembers(tail, p);
        var r := [s[0]] + f;
        forall i, j | 0 <= i < j < |r| ensures key(r[i]) != key(r[j]) {
          if i == 0 {
            var k :| 0 <= k < |tail| && tail[k] == f[j - 1];
            assert s[1 + k] == tail[k];
          }
        }
      }
    }
  }

  /** REPLACE keeps the keys unique: afterwards the new row is the only one
      with its key, and every row with another key is kept. */
  lemma UpsertReplaces<T, K>(s: seq<T>, x: T, key: T -> K)
    requires UniqueKeys(s, key)
    ensures UniqueKeys(Upsert(s, x, key), key)
    ensures x in Upsert(s, x, key)
    ensures forall y :: y in Upsert(s, x, key) && key(y) == key(x) ==> y == x
    ensures forall y: T :: key(y) != key(x) ==> (y in Upsert(s, x, key) <==> y in s)
  {
    var kept := Filter(s, OtherKey(key, key(x)));
    FilterMembers(s, OtherKey(key, key(x)));
    FilterUnique(s, key, OtherKey(key, key(x)));
    var after := Upsert(s, x, key);
    forall i, j | 0 <= i < j < |after| ensures key(after[i]) != key(after[j]) {
      if j == |after| - 1 {
        assert after[i] == kept[i];
      } else {
        assert after[i] == kept[i] && after[j] == kept[j];
      }
    }
    forall y | y in after && key(y) == key(x) ensures y == x {
      var i :| 0 <= i < |after| && after[i] == y;
    }
    forall y: T | key(y) != key(x) ensures y in after <==> y in s {
      if y in after {
        var i :| 0 <= i < |after| && after[i] == y;
        assert after[i] == kept[i];
      }
      if y in s {
        var i :| 0 <= i < |s| && s[i] == y;
        assert y in kept;
      }
    }
  }

  /** UPDATE keeps the keys, hence their uniqueness; a stored row with the
      key is then found as the new row, and other keys find what they did. */
  lemma ReplaceThenFind<T, K>(s: seq<T>, x: T, key: T -> K, k: K)
    requires UniqueKeys(s, key)
    ensures UniqueKeys(Replace(s, x, key), key)
    ensures FindBy(Replace(s, x, key), k, key)
         == if k == key(x) && FindBy(s, k, key).Some? then Some(x) else FindBy(s, k, key)
  {
    var r := Replace(s, x, key);
    assert forall i :: 0 <= i < |s| ==> key(r[i]) == key(s[i]);
    if FindBy(s, k, key).Some? {
      var i :| 0 <= i < |s| && key(s[i]) == k;
      FindByUnique(s, s[i], key);
      FindByUnique(r, r[i], key);
    }
  }

  /** After REPLACE the new row is found under its key and every other key
      finds what it found before. */
  lemma UpsertThenFind<T, K>(s: seq<T>, x: T, key: T -> K, k: K)
    requires UniqueKeys(s, key)
    ensures UniqueKeys(Upsert(s, x, key), key)
    ensures FindBy(Upsert(s, x, key), k, key) == if k == key(x) then Some(x) else FindBy(s, k, key)
  {
    var u := Upsert(s, x, key);
    UpsertReplaces(s, x, key);
    if k == key(x) {
      FindByUnique(u, x, key);
    } else if FindBy(u, k, key).Some? {
      var y := FindBy(u, k, key).value;
      assert y in s;
      FindByUnique(s, y, key);
      FindByUnique(u, y, key);
    }
  }
}
