/**
 * Stable insertion sort by a string key, the behaviour `Array.prototype.sort`
 * guarantees (stability since ECMAScript 2019) when the comparator compares
 * one string field.
 */
module Sorting {
  import opened Text
  import opened Seqs

  ghost predicate SortedBy<T>(s: seq<T>, key: T -> string) {
    forall i, j | 0 <= i < j < |s| :: StrLe(key(s[i]), key(s[j]))
  }

  ghost predicate SortedDescBy<T>(s: seq<T>, key: T -> string) {
    forall i, j | 0 <= i < j < |s| :: StrLe(key(s[j]), key(s[i]))
  }

  /** The selector "has key `k`". */
  function HasKey<T>(key: T -> string, k: string): T -> bool {
    x => key(x) == k
  }

  /** The elements of `s` whose key is `k`, in order. */
  function WithKey<T>(s: seq<T>, key: T -> string, k: string): seq<T> {
    Filter(s, HasKey(key, k))
  }

  /** Inserts `x` after every element whose key is not greater than its own. */
  function InsertBy<T>(x: T, s: seq<T>, key: T -> string): (r: seq<T>)
    requires SortedBy(s, key)
    ensures SortedBy(r, key)
    ensures multiset(r) == multiset(s) + multiset{x}
    ensures |r| == |s| + 1
  {
    if s == [] then [x]
    else if StrLt(key(x), key(s[0])) then
      StrLtIsStrict(key(x), key(s[0]));
      InsertAhead(x, s, key);
      [x] + s
    else
      StrLeTotal(key(x), key(s[0]));
      var rest := InsertBy(x, s[1..], key);
      InsertBehind(x, s, rest, key);
      assert s == [s[0]] + s[1..];
      [s[0]] + rest
  }

  lemma InsertAhead<T>(x: T, s: seq<T>, key: T -> string)
    requires SortedBy(s, key) && |s| > 0 && StrLe(key(x), key(s[0]))
    ensures SortedBy([x] + s, key)
  {
    forall j | 0 <= j < |s| ensures StrLe(key(x), key(s[j])) {
      if j > 0 { StrLeTransitive(key(x), key(s[0]), key(s[j])); }
    }
    var r := [x] + s;
    forall i, j | 0 <= i < j < |r| ensures StrLe(key(r[i]), key(r[j])) {
      if i > 0 { assert r[i] == s[i - 1] && r[j] == s[j - 1]; }
      else { assert r[j] == s[j - 1]; }
    }
  }

  lemma InsertBehind<T>(x: T, s: seq<T>, rest: seq<T>, key: T -> string)
    requires SortedBy(s, key) && |s| > 0 && StrLe(key(s[0]), key(x))
    requires SortedBy(rest, key)
    requires multiset(rest) == multiset(s[1..]) + multiset{x}
    ensures SortedBy([s[0]] + rest, key)
  {
    forall j | 0 <= j < |rest| ensures StrLe(key(s[0]), key(rest[j])) {
      assert rest[j] in multiset(rest);
      if rest[j] != x {
        assert rest[j] in multiset(s[1..]);
        var k :| 0 <= k < |s[1..]| && s[1..][k] == rest[j];
        assert s[k + 1] == rest[j];
      }
    }
  }

  /** Stable sort: ordered by key, a permutation, and elements with equal
      keys keep their relative order. */
  function SortBy<T>(s: seq<T>, key: T -> string): (r: seq<T>)
    ensures SortedBy(r, key)
    ensures multiset(r) == multiset(s)
    ensures |r| == |s|
  {
    if s == [] then []
    else
      assert s == s[..|s| - 1] + [s[|s| - 1]];
      InsertBy(s[|s| - 1], SortBy(s[..|s| - 1], key), key)
  }

  /** Inserting `x` appends it to the run of elements sharing its key. */
  lemma {:induction false} InsertByStable<T>(x: T, s: seq<T>, key: T -> string, k: string)
    requires SortedBy(s, key)
    ensures WithKey(InsertBy(x, s, key), key, k)
         == WithKey(s, key, k) + (if key(x) == k then [x] else [])
  {
    if s == [] {
    } else if StrLt(key(x), key(s[0])) {
      // every key in s is above key(x), so nothing in s has x's key
      if key(x) == k {
        forall i | 0 <= i < |s| ensures key(s[i]) != k {
          StrLeReflexive(key(x));
        }
        NoneWithKey(s, key, k);
      }
    } else {
      assert s == [s[0]] + s[1..];
      InsertByStable(x, s[1..], key, k);
    }
  }

  lemma {:induction false} NoneWithKey<T>(s: seq<T>, key: T -> string, k: string)
    requires forall i | 0 <= i < |s| :: key(s[i]) != k
    ensures WithKey(s, key, k) == []
  {
    if s != [] { NoneWithKey(s[1..], key, k); }
  }

  /** The sort is stable: for every key, the elements carrying it appear in
      the output in the same order as in the input. */
  lemma {:induction false} SortByStable<T>(s: seq<T>, key: T -> string, k: string)
    ensures WithKey(SortBy(s, key), key, k) == WithKey(s, key, k)
  {
    if s != [] {
      var init := s[..|s| - 1];
      var x := s[|s| - 1];
      var sorted := SortBy(init, key);
      assert SortBy(s, key) == InsertBy(x, sorted, key);
      SortByStable(init, key, k);
      InsertByStable(x, sorted, key, k);
      assert s == init + [x];
      FilterAppend(init, [x], HasKey(key, k));
      assert WithKey([x], key, k) == if key(x) == k then [x] else [];
    }
  }

  /** Reversing an ascending order gives a descending one. */
  function Reverse<T>(s: seq<T>): (r: seq<T>)
    ensures |r| == |s|
    ensures forall i | 0 <= i < |s| :: r[i] == s[|s| - 1 - i]
    ensures multiset(r) == multiset(s)
  {
    if s == [] then []
    else
      assert s == [s[0]] + s[1..];
      Reverse(s[1..]) + [s[0]]
  }

  /** Sort descending by key (ties in reverse input order). */
  function SortDescBy<T>(s: seq<T>, key: T -> string): (r: seq<T>)
    ensures SortedDescBy(r, key)
    ensures multiset(r) == multiset(s)
    ensures |r| == |s|
  {
    Reverse(SortBy(s, key))
  }
}
