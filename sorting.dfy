/** Ordering of query results by one integer key, ascending or descending, as
    the document store's `sort({ key: 1 | -1 })` does. Ties are left in an
    order the store does not promise; only the key order and the contents are
    stated. */
module Sorting {

  /** `a` may come before `b` in the requested direction. */
  predicate InOrder(a: int, b: int, ascending: bool)
  {
    if ascending then a <= b else a >= b
  }

  predicate SortedBy<T>(s: seq<T>, key: T -> int, ascending: bool)
  {
    forall i, j :: 0 <= i < j < |s| ==> InOrder(key(s[i]), key(s[j]), ascending)
  }

  /** Places `x` before the first element it may precede. */
  function Insert<T>(x: T, s: seq<T>, key: T -> int, ascending: bool): seq<T>
  {
    if s == [] || InOrder(key(x), key(s[0]), ascending) then [x] + s
    else [s[0]] + Insert(x, s[1..], key, ascending)
  }

  /** Insertion adds exactly `x`. */
  lemma {:induction false} InsertPermutes<T>(x: T, s: seq<T>, key: T -> int, ascending: bool)
    ensures multiset(Insert(x, s, key, ascending)) == multiset(s) + multiset{x}
  {
    if !(s == [] || InOrder(key(x), key(s[0]), ascending)) {
      InsertPermutes(x, s[1..], key, ascending);
      assert s == [s[0]] + s[1..];
    }
  }

  /** An element that may precede `x` and everything in `s` may precede
      everything in the result of inserting `x` into `s`. */
  lemma BeforeInserted<T>(y: T, x: T, s: seq<T>, key: T -> int, ascending: bool)
    requires InOrder(key(y), key(x), ascending)
    requires forall k :: 0 <= k < |s| ==> InOrder(key(y), key(s[k]), ascending)
    ensures forall j :: 0 <= j < |Insert(x, s, key, ascending)| ==>
              InOrder(key(y), key(Insert(x, s, key, ascending)[j]), ascending)
  {
    var r := Insert(x, s, key, ascending);
    InsertPermutes(x, s, key, ascending);
    forall j | 0 <= j < |r| ensures InOrder(key(y), key(r[j]), ascending) {
      assert r[j] in multiset(r);
      if r[j] != x {
        assert r[j] in multiset(s);
        var k :| 0 <= k < |s| && s[k] == r[j];
      }
    }
  }

  /** An element that may precede everything in a sorted sequence keeps it
      sorted when placed in front. */
  lemma ConsSorted<T>(y: T, s: seq<T>, key: T -> int, ascending: bool)
    requires SortedBy(s, key, ascending)
    requires forall k :: 0 <= k < |s| ==> InOrder(key(y), key(s[k]), ascending)
    ensures SortedBy([y] + s, key, ascending)
  {
    var r := [y] + s;
    forall i, j | 0 <= i < j < |r| ensures InOrder(key(r[i]), key(r[j]), ascending) {
      if i == 0 {
        assert r[j] == s[j - 1];
      } else {
        assert r[i] == s[i - 1] && r[j] == s[j - 1];
      }
    }
  }

  lemma {:induction false} InsertSorted<T>(x: T, s: seq<T>, key: T -> int, ascending: bool)
    requires SortedBy(s, key, ascending)
    ensures SortedBy(Insert(x, s, key, ascending), key, ascending)
    ensures multiset(Insert(x, s, key, ascending)) == multiset(s) + multiset{x}
  {
    InsertPermutes(x, s, key, ascending);
    if s == [] || InOrder(key(x), key(s[0]), ascending) {
      forall k | 0 <= k < |s| ensures InOrder(key(x), key(s[k]), ascending) {
        assert InOrder(key(s[0]), key(s[k]), ascending) || k == 0;
      }
      ConsSorted(x, s, key, ascending);
    } else {
      var tail := s[1..];
      assert SortedBy(tail, key, ascending) by {
        assert forall k :: 0 <= k < |tail| ==> tail[k] == s[k + 1];
      }
      InsertSorted(x, tail, key, ascending);
      assert forall k :: 0 <= k < |tail| ==> InOrder(key(s[0]), key(tail[k]), ascending) by {
        assert forall k :: 0 <= k < |tail| ==> tail[k] == s[k + 1];
      }
      BeforeInserted(s[0], x, tail, key, ascending);
      ConsSorted(s[0], Insert(x, tail, key, ascending), key, ascending);
    }
  }

  /** `page` takes only elements of `s`, and each of its elements may precede
      every element of `s` it leaves out: e.g. the newest blogs of a list. */
  predicate LeadsAll<T(==)>(page: seq<T>, s: seq<T>, key: T -> int, ascending: bool)
  {
    && multiset(page) <= multiset(s)
    && forall k, x :: 0 <= k < |page| && x in multiset(s) - multiset(page) ==> InOrder(key(page[k]), key(x), ascending)
  }

  /** The first `n` elements of a sorted arrangement of `s` lead all of `s`. */
  lemma SortedPrefixLeads<T>(s: seq<T>, t: seq<T>, n: nat, key: T -> int, ascending: bool)
    requires SortedBy(t, key, ascending) && multiset(t) == multiset(s) && n <= |t|
    ensures LeadsAll(t[..n], s, key, ascending)
  {
    var front, back := t[..n], t[n..];
    assert t == front + back;
    assert multiset(s) - multiset(front) == multiset(back);
    forall k, x | 0 <= k < |front| && x in multiset(s) - multiset(front)
      ensures InOrder(key(front[k]), key(x), ascending)
    {
      assert x in back;
      var j :| 0 <= j < |back| && back[j] == x;
      assert front[k] == t[k] && x == t[n + j];
    }
  }

  /** The input reordered so that the keys follow the requested direction. */
  function SortBy<T(==)>(s: seq<T>, key: T -> int, ascending: bool): (r: seq<T>)
    ensures SortedBy(r, key, ascending)
    ensures multiset(r) == multiset(s)
    ensures |r| == |s|
  {
    if s == [] then []
    else
      var sorted := SortBy(s[1..], key, ascending);
      InsertSorted(s[0], sorted, key, ascending);
      assert s == [s[0]] + s[1..];
      Insert(s[0], sorted, key, ascending)
  }
}
