/** `Array.prototype.filter`, which the source uses to drop likes, comments
    and blogs, with the facts about it that the rest of the model relies on. */
module Seqs {

  function Filter<T>(s: seq<T>, keep: T -> bool): (r: seq<T>)
    ensures |r| <= |s|
    ensures forall k :: 0 <= k < |r| ==> keep(r[k])
  {
    if s == [] then []
    else if keep(s[0]) then [s[0]] + Filter(s[1..], keep)
    else Filter(s[1..], keep)
  }

  /** Filtering a concatenation filters each part in place: the kept elements
      stay in their original relative order. */
  lemma {:induction false} FilterAppend<T>(a: seq<T>, b: seq<T>, keep: T -> bool)
    ensures Filter(a + b, keep) == Filter(a, keep) + Filter(b, keep)
  {
    if a != [] {
      assert (a + b)[0] == a[0];
      assert (a + b)[1..] == a[1..] + b;
      FilterAppend(a[1..], b, keep);
    } else {
      assert a + b == b;
    }
  }

  /** An element survives the filter exactly when it was there and is kept. */
  lemma {:induction false} FilterMember<T>(s: seq<T>, keep: T -> bool, x: T)
    ensures x in Filter(s, keep) <==> x in s && keep(x)
  {
    if s != [] {
      FilterMember(s[1..], keep, x);
      assert s == [s[0]] + s[1..];
    }
  }

  /** A filter that keeps every element is the identity. */
  lemma {:induction false} FilterKeepsAll<T>(s: seq<T>, keep: T -> bool)
    requires forall k :: 0 <= k < |s| ==> keep(s[k])
    ensures Filter(s, keep) == s
  {
    if s != [] {
      FilterKeepsAll(s[1..], keep);
      assert s == [s[0]] + s[1..];
    }
  }

  /** A sequence with no element repeated. */
  predicate NoDuplicates<T(==)>(s: seq<T>)
  {
    forall i, j :: 0 <= i < j < |s| ==> s[i] != s[j]
  }

  /** Filtering never introduces a duplicate. */
  lemma {:induction false} FilterNoDuplicates<T>(s: seq<T>, keep: T -> bool)
    requires NoDuplicates(s)
    ensures NoDuplicates(Filter(s, keep))
  {
    if s != [] {
      FilterNoDuplicates(s[1..], keep);
      if keep(s[0]) {
        FilterMember(s[1..], keep, s[0]);
        var rest := Filter(s[1..], keep);
        assert s[0] !in s[1..];
        var r := [s[0]] + rest;
        forall i, j | 0 <= i < j < |r| ensures r[i] != r[j] {
          if i == 0 { assert r[j] in rest; }
          else { assert r[i] == rest[i - 1] && r[j] == rest[j - 1]; }
        }
      }
    }
  }

  /** Every occurrence of `x` removed, the rest in order. */
  function RemoveAll<T(==)>(s: seq<T>, x: T): (r: seq<T>)
  {
    Filter(s, y => y != x)
  }

  /** `x` is gone, every other element keeps its membership, and the survivors
      keep their order (removing from a concatenation removes from each part). */
  lemma RemoveAllSpec<T>(s: seq<T>, x: T)
    ensures x !in RemoveAll(s, x)
    ensures forall y :: y != x ==> (y in RemoveAll(s, x) <==> y in s)
    ensures forall a, b :: s == a + b ==> RemoveAll(s, x) == RemoveAll(a, x) + RemoveAll(b, x)
  {
    forall y ensures y in RemoveAll(s, x) <==> y in s && y != x {
      FilterMember(s, y => y != x, y);
    }
    forall a, b | s == a + b ensures RemoveAll(s, x) == RemoveAll(a, x) + RemoveAll(b, x) {
      FilterAppend(a, b, y => y != x);
    }
  }

  /** Removing an element that occurs once shortens the sequence by one and
      leaves it duplicate-free. */
  lemma RemoveAllOnce<T>(s: seq<T>, x: T)
    requires NoDuplicates(s) && x in s
    ensures |RemoveAll(s, x)| == |s| - 1
    ensures NoDuplicates(RemoveAll(s, x))
  {
    FilterNoDuplicates(s, y => y != x);
    var i :| 0 <= i < |s| && s[i] == x;
    var a, b := s[..i], s[i + 1..];
    assert s == a + [x] + b;
    FilterAppend(a + [x], b, y => y != x);
    FilterAppend(a, [x], y => y != x);
    assert forall k :: 0 <= k < |a| ==> a[k] == s[k];
    assert forall k :: 0 <= k < |b| ==> b[k] == s[i + 1 + k];
    FilterKeepsAll(a, y => y != x);
    FilterKeepsAll(b, y => y != x);
  }

  /** Appending an element that is absent and then removing it restores the sequence. */
  lemma RemoveAllAppended<T>(s: seq<T>, x: T)
    requires x !in s
    ensures RemoveAll(s + [x], x) == s
  {
    FilterAppend(s, [x], y => y != x);
    FilterKeepsAll(s, y => y != x);
  }
}
