/** The query operators the services apply to the store's tables
    (Where, FirstOrDefault, key sets and generated keys), over sequences of rows. */
module Queries {
  import opened Wrappers

  /** `Where(keep)`: the rows of s that satisfy keep, in their original order. */
  function Filter<T(==, !new)>(s: seq<T>, keep: T -> bool): (r: seq<T>)
    ensures |r| <= |s|
    ensures forall x :: x in r <==> x in s && keep(x)
  {
    if s == [] then []
    else
      var rest := Filter(s[1..], keep);
      assert s == [s[0]] + s[1..];
      if keep(s[0]) then [s[0]] + rest else rest
  }

  /** `FirstOrDefault(p)`: the first row satisfying p, or None when no row does. */
  function FirstMatch<T(==, !new)>(s: seq<T>, p: T -> bool): (r: Option<T>)
    ensures r.Some? ==> r.value in s && p(r.value)
    ensures r.Some? ==> exists i :: 0 <= i < |s| && s[i] == r.value && forall j :: 0 <= j < i ==> !p(s[j])
    ensures r.None? <==> forall x :: x in s ==> !p(x)
  {
    if s == [] then None
    else if p(s[0]) then Some(s[0])
    else
      assert s == [s[0]] + s[1..];
      var r := FirstMatch(s[1..], p);
      assert r.Some? ==> exists i :: 0 <= i < |s| && s[i] == r.value && forall j :: 0 <= j < i ==> !p(s[j]) by {
        if r.Some? {
          var i :| 0 <= i < |s[1..]| && s[1..][i] == r.value && forall j :: 0 <= j < i ==> !p(s[1..][j]);
          assert s[i + 1] == r.value;
          forall j | 0 <= j < i + 1 ensures !p(s[j]) {
            if j > 0 { assert s[j] == s[1..][j - 1]; }
          }
        }
      }
      r
  }

  /** The set of keys present in a table. */
  function Keys<T(==, !new), K>(s: seq<T>, key: T -> K): set<K> {
    set x | x in s :: key(x)
  }

  /** No two rows of s share a key: a primary key or a unique index. */
  ghost predicate KeysUnique<T(!new), K>(s: seq<T>, key: T -> K) {
    forall i, j :: 0 <= i < j < |s| ==> key(s[i]) != key(s[j])
  }

  /** Under a unique key, a key names at most one row. */
  lemma KeyDeterminesRow<T(!new), K>(s: seq<T>, key: T -> K, x: T, y: T)
    requires KeysUnique(s, key)
    requires x in s && y in s && key(x) == key(y)
    ensures x == y
  {
    var i :| 0 <= i < |s| && s[i] == x;
    var j :| 0 <= j < |s| && s[j] == y;
    assert key(s[i]) == key(s[j]);
  }

  /** Removing rows never breaks a unique key. */
  lemma {:induction false} FilterKeysUnique<T(!new), K>(s: seq<T>, keep: T -> bool, key: T -> K)
    requires KeysUnique(s, key)
    ensures KeysUnique(Filter(s, keep), key)
  {
    if s != [] {
      var rest := Filter(s[1..], keep);
      assert KeysUnique(s[1..], key) by {
        forall i, j | 0 <= i < j < |s[1..]| ensures key(s[1..][i]) != key(s[1..][j]) {
          assert s[1..][i] == s[i + 1] && s[1..][j] == s[j + 1];
        }
      }
      FilterKeysUnique(s[1..], keep, key);
      if keep(s[0]) {
        forall y | y in rest ensures key(s[0]) != key(y) {
          var k :| 0 <= k < |s[1..]| && s[1..][k] == y;
          assert s[k + 1] == y;
        }
        var r := [s[0]] + rest;
        forall i, j | 0 <= i < j < |r| ensures key(r[i]) != key(r[j]) {
          if i == 0 {
            assert r[j] == rest[j - 1] && r[j] in rest;
          } else {
            assert r[i] == rest[i - 1] && r[j] == rest[j - 1];
          }
        }
      }
    }
  }

  /** Removing the rows that carry one key removes exactly one row when that key
      is present and unique. */
  lemma {:induction false} FilterDropsOneKey<T(!new), K>(s: seq<T>, keep: T -> bool, key: T -> K, k: K)
    requires KeysUnique(s, key)
    requires forall x :: x in s ==> (keep(x) <==> key(x) != k)
    requires k in Keys(s, key)
    ensures |Filter(s, keep)| == |s| - 1
  {
    assert s == [s[0]] + s[1..];
    assert KeysUnique(s[1..], key) by {
      forall i, j | 0 <= i < j < |s[1..]| ensures key(s[1..][i]) != key(s[1..][j]) {
        assert s[1..][i] == s[i + 1] && s[1..][j] == s[j + 1];
      }
    }
    if key(s[0]) == k {
      assert forall x :: x in s[1..] ==> keep(x) by {
        forall x | x in s[1..] ensures keep(x) {
          var m :| 0 <= m < |s[1..]| && s[1..][m] == x;
          assert s[m + 1] == x && key(s[0]) != key(s[m + 1]);
        }
      }
      FilterKeepsAll(s[1..], keep);
    } else {
      var x :| x in s && key(x) == k;
      assert x in s[1..];
      FilterDropsOneKey(s[1..], keep, key, k);
    }
  }

  /** A filter that keeps every row is the identity. */
  lemma {:induction false} FilterKeepsAll<T(!new)>(s: seq<T>, keep: T -> bool)
    requires forall x :: x in s ==> keep(x)
    ensures Filter(s, keep) == s
  {
    if s != [] {
      assert s == [s[0]] + s[1..];
      FilterKeepsAll(s[1..], keep);
    }
  }

  /** The key a database identity column generates for the next inserted row:
      one more than every key in use. */
  function NextKey<T(==, !new)>(s: seq<T>, key: T -> int): (r: int)
    ensures r >= 1
    ensures forall x :: x in s ==> key(x) < r
  {
    if s == [] then 1
    else
      var n := NextKey(s[1..], key);
      assert s == [s[0]] + s[1..];
      if key(s[0]) < n then n else key(s[0]) + 1
  }

  /** Appending a row whose key is new keeps a unique key unique. */
  lemma AppendKeysUnique<T(!new), K>(s: seq<T>, key: T -> K, x: T)
    requires KeysUnique(s, key)
    requires key(x) !in Keys(s, key)
    ensures KeysUnique(s + [x], key)
  {
    var r := s + [x];
    forall i, j | 0 <= i < j < |r| ensures key(r[i]) != key(r[j]) {
      if j == |s| {
        assert r[i] == s[i] && key(s[i]) in Keys(s, key);
      } else {
        assert r[i] == s[i] && r[j] == s[j];
      }
    }
  }

  /** Filtering distributes over appending one row. */
  lemma {:induction false} FilterAppend<T(!new)>(s: seq<T>, keep: T -> bool, x: T)
    ensures Filter(s + [x], keep) == Filter(s, keep) + (if keep(x) then [x] else [])
  {
    if s == [] {
      assert [x][1..] == [];
    } else {
      assert (s + [x])[1..] == s[1..] + [x];
      FilterAppend(s[1..], keep, x);
    }
  }

  /** Writing back a changed row: the row with x's key becomes x, every other
      row stays where it was. */
  function ReplaceByKey<T(!new), K(==)>(s: seq<T>, key: T -> K, x: T): (r: seq<T>)
    ensures |r| == |s|
    ensures forall i :: 0 <= i < |s| ==> key(r[i]) == key(s[i])
    ensures forall i :: 0 <= i < |s| && key(s[i]) == key(x) ==> r[i] == x
    ensures forall i :: 0 <= i < |s| && key(s[i]) != key(x) ==> r[i] == s[i]
  {
    seq(|s|, i requires 0 <= i < |s| => if key(s[i]) == key(x) then x else s[i])
  }

  /** What a write-back leaves in the table: x, when a row carried its key, and
      every row with another key; nothing else. When no row carries x's key the
      table is unchanged. */
  lemma ReplaceByKeyRows<T(!new), K>(s: seq<T>, key: T -> K, x: T)
    ensures forall y :: y in ReplaceByKey(s, key, x) ==> y == x || (y in s && key(y) != key(x))
    ensures forall y :: y in s && key(y) != key(x) ==> y in ReplaceByKey(s, key, x)
    ensures x in ReplaceByKey(s, key, x) <==> key(x) in Keys(s, key)
    ensures key(x) !in Keys(s, key) ==> ReplaceByKey(s, key, x) == s
  {
    var r := ReplaceByKey(s, key, x);
    forall y | y in r ensures y == x || (y in s && key(y) != key(x)) {
      var i :| 0 <= i < |r| && r[i] == y;
      if key(s[i]) != key(x) { assert r[i] == s[i]; }
    }
    forall y | y in s && key(y) != key(x) ensures y in r {
      var i :| 0 <= i < |s| && s[i] == y;
      assert r[i] == y;
    }
    if key(x) in Keys(s, key) {
      var m :| 0 <= m < |s| && key(s[m]) == key(x);
      assert r[m] == x;
    } else {
      forall i | 0 <= i < |s| ensures r[i] == s[i] {
        assert key(s[i]) in Keys(s, key);
      }
    }
  }

  /** A write-back keeps the table's key set and its key uniqueness, and under
      a unique key the table then holds x in place of the row it replaced. */
  lemma ReplaceByKeyKeepsKeys<T(!new), K>(s: seq<T>, key: T -> K, x: T)
    requires KeysUnique(s, key)
    requires key(x) in Keys(s, key)
    ensures Keys(ReplaceByKey(s, key, x), key) == Keys(s, key)
    ensures KeysUnique(ReplaceByKey(s, key, x), key)
    ensures forall y :: y in ReplaceByKey(s, key, x) <==> y == x || (y in s && key(y) != key(x))
  {
    var r := ReplaceByKey(s, key, x);
    forall k | k in Keys(s, key) ensures k in Keys(r, key) {
      var i :| 0 <= i < |s| && key(s[i]) == k;
      assert r[i] in r && key(r[i]) == k;
    }
    forall k | k in Keys(r, key) ensures k in Keys(s, key) {
      var i :| 0 <= i < |r| && key(r[i]) == k;
      assert s[i] in s && key(s[i]) == k;
    }
    forall i, j | 0 <= i < j < |r| ensures key(r[i]) != key(r[j]) {
      assert key(s[i]) != key(s[j]);
    }
    ReplaceByKeyRows(s, key, x);
  }

  /** Two successive write-backs of the same row leave only the second. */
  lemma ReplaceByKeyTwice<T(!new), K>(s: seq<T>, key: T -> K, x: T, y: T)
    requires key(x) == key(y)
    ensures ReplaceByKey(ReplaceByKey(s, key, x), key, y) == ReplaceByKey(s, key, y)
  {
  }

  /** Writing back a row exactly as stored changes nothing. */
  lemma ReplaceByKeySame<T(!new), K>(s: seq<T>, key: T -> K, x: T)
    requires KeysUnique(s, key)
    requires x in s
    ensures ReplaceByKey(s, key, x) == s
  {
    var r := ReplaceByKey(s, key, x);
    forall i | 0 <= i < |s| ensures r[i] == s[i] {
      if key(s[i]) == key(x) {
        KeyDeterminesRow(s, key, s[i], x);
      }
    }
  }

  /** Writing back the row just appended replaces that row alone. */
  lemma ReplaceAppended<T(!new), K>(s: seq<T>, key: T -> K, x: T, y: T)
    requires key(x) == key(y)
    requires key(x) !in Keys(s, key)
    ensures ReplaceByKey(s + [x], key, y) == s + [y]
  {
    var r := ReplaceByKey(s + [x], key, y);
    forall i | 0 <= i < |s| ensures r[i] == s[i] {
      assert (s + [x])[i] == s[i] && key(s[i]) in Keys(s, key);
    }
  }
}
