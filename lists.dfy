// The Kotlin list operations the managers build on: find (the first
// element matching a predicate), removeAll (drop every match, keep the rest
// in order) and the filter that keeps the matches; and the ordering the
// id-counted lists keep, ids strictly ascending along the list.
module Lists {
  import opened Common

  /** indexOfFirst: the position of the first element satisfying p, if any. */
  function IndexWhere<T>(s: seq<T>, p: T -> bool): (r: Option<nat>)
    ensures r.Some? ==> r.value < |s| && p(s[r.value]) && forall i :: 0 <= i < r.value ==> !p(s[i])
    ensures r.None? <==> forall i :: 0 <= i < |s| ==> !p(s[i])
  {
    if s == [] then None
    else if p(s[0]) then Some(0)
    else match IndexWhere(s[1..], p)
      case None => None
      case Some(k) => Some(k + 1)
  }

  /** filter: the elements satisfying p, in their order. */
  function Filter<T(!new)>(s: seq<T>, p: T -> bool): (r: seq<T>)
    ensures |r| <= |s|
    ensures forall x :: x in r <==> x in s && p(x)
  {
    if s == [] then []
    else (if p(s[0]) then [s[0]] else []) + Filter(s[1..], p)
  }

  /** Filtering with a predicate every element satisfies changes nothing. */
  lemma {:induction false} FilterAll<T(!new)>(s: seq<T>, p: T -> bool)
    requires forall i :: 0 <= i < |s| ==> p(s[i])
    ensures Filter(s, p) == s
  {
    if s != [] {
      FilterAll(s[1..], p);
      assert s == [s[0]] + s[1..];
    }
  }

  /** Filtering a concatenation filters each part, so the kept elements stay in order. */
  lemma {:induction false} FilterOfAppend<T(!new)>(s: seq<T>, t: seq<T>, p: T -> bool)
    ensures Filter(s + t, p) == Filter(s, p) + Filter(t, p)
  {
    if s != [] {
      assert (s + t)[1..] == s[1..] + t;
      FilterOfAppend(s[1..], t, p);
    } else {
      assert s + t == t;
    }
  }

  /** The keys of s strictly ascend along the list, so no two elements share one. */
  predicate AscendingBy<T>(s: seq<T>, key: T -> int)
  {
    forall i, j :: 0 <= i < j < |s| ==> key(s[i]) < key(s[j])
  }

  /** The tail of an ascending list ascends, above its head. */
  lemma AscendingTail<T>(x: T, rest: seq<T>, key: T -> int)
    requires AscendingBy([x] + rest, key)
    ensures AscendingBy(rest, key) && forall u :: u in rest ==> key(x) < key(u)
  {
    var l := [x] + rest;
    forall u | u in rest ensures key(x) < key(u) {
      var k :| 0 <= k < |rest| && rest[k] == u;
      assert l[0] == x && l[k + 1] == u;
    }
    forall i, j | 0 <= i < j < |rest| ensures key(rest[i]) < key(rest[j]) {
      assert l[i + 1] == rest[i] && l[j + 1] == rest[j];
    }
  }

  /** A key below every key of an ascending list can go at its head. */
  lemma AscendingPrepend<T>(x: T, rest: seq<T>, key: T -> int)
    requires AscendingBy(rest, key) && forall u :: u in rest ==> key(x) < key(u)
    ensures AscendingBy([x] + rest, key)
  {
    var l := [x] + rest;
    forall i, j | 0 <= i < j < |l| ensures key(l[i]) < key(l[j]) {
      assert l[j] == rest[j - 1];
      if i > 0 {
        assert l[i] == rest[i - 1];
      }
    }
  }

  /** Appending a key above all others keeps the keys ascending. */
  lemma AscendingSnoc<T>(s: seq<T>, x: T, key: T -> int)
    requires AscendingBy(s, key) && forall i :: 0 <= i < |s| ==> key(s[i]) < key(x)
    ensures AscendingBy(s + [x], key)
  {
    var l := s + [x];
    forall i, j | 0 <= i < j < |l| ensures key(l[i]) < key(l[j]) {
      assert l[i] == s[i];
      if j < |s| {
        assert l[j] == s[j];
      }
    }
  }

  /** Filtering (and so removeAll) keeps the keys ascending. */
  lemma {:induction false} FilterAscending<T(!new)>(s: seq<T>, p: T -> bool, key: T -> int)
    requires AscendingBy(s, key)
    ensures AscendingBy(Filter(s, p), key)
  {
    if s != [] {
      var rest := s[1..];
      assert s == [s[0]] + rest;
      AscendingTail(s[0], rest, key);
      FilterAscending(rest, p, key);
      if p(s[0]) {
        AscendingPrepend(s[0], Filter(rest, p), key);
      }
    }
  }

  /** In an ascending list the first element with a key is the only one. */
  lemma AscendingUnique<T>(s: seq<T>, key: T -> int, i: int, j: int)
    requires AscendingBy(s, key) && 0 <= i < |s| && 0 <= j < |s| && key(s[i]) == key(s[j])
    ensures i == j
  {
  }
}
