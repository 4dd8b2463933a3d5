/**
 * The two orderings the queries ask storage for: rows sorted on an integer key
 * (ORDER BY ... ASC), and the largest value of a set (the first row of
 * ORDER BY ... DESC).
 */
module Ordering {
  import opened Wrappers

  /** `s` is in ascending order of `key`; ties may come in any order. */
  predicate SortedBy<T>(s: seq<T>, key: T -> int) {
    forall i, j :: 0 <= i < j < |s| ==> key(s[i]) <= key(s[j])
  }

  /** Places `x` into the sorted `s`, keeping it sorted and losing nothing. */
  function InsertBy<T>(s: seq<T>, x: T, key: T -> int): (r: seq<T>)
    requires SortedBy(s, key)
    ensures SortedBy(r, key)
    ensures multiset(r) == multiset(s) + multiset{x}
  {
    if s == [] || key(x) <= key(s[0]) then
      SortedCons(x, s, key);
      [x] + s
    else
      var tail := InsertBy(s[1..], x, key);
      assert s == [s[0]] + s[1..];
      KeysAtLeast(tail, s[1..], x, key, key(s[0]));
      SortedCons(s[0], tail, key);
      [s[0]] + tail
  }

  /** A sequence made of the elements of `s` and `x` has no key below a bound all of them meet. */
  lemma KeysAtLeast<T>(t: seq<T>, s: seq<T>, x: T, key: T -> int, bound: int)
    requires multiset(t) == multiset(s) + multiset{x}
    requires forall i :: 0 <= i < |s| ==> bound <= key(s[i])
    requires bound <= key(x)
    ensures forall i :: 0 <= i < |t| ==> bound <= key(t[i])
  {
    forall i | 0 <= i < |t| ensures bound <= key(t[i]) {
      assert t[i] in multiset(t);
      if t[i] != x {
        assert t[i] in multiset(s);
      }
    }
  }

  /** A sorted sequence stays sorted when preceded by a key no larger than any of its own. */
  lemma SortedCons<T>(h: T, t: seq<T>, key: T -> int)
    requires SortedBy(t, key)
    requires forall i :: 0 <= i < |t| ==> key(h) <= key(t[i])
    ensures SortedBy([h] + t, key)
  {
    var r := [h] + t;
    forall i, j | 0 <= i < j < |r| ensures key(r[i]) <= key(r[j]) {
      if i > 0 {
        assert r[i] == t[i - 1] && r[j] == t[j - 1];
      } else {
        assert r[j] == t[j - 1];
      }
    }
  }

  /** A set that is not empty has a member to pick. */
  lemma Member<T>(s: set<T>) returns (y: T)
    requires s != {}
    ensures y in s
  {
    assert (forall x :: x !in s) ==> s == {};
    y :| y in s;
  }

  /** A non-empty finite set of integers has a largest element. */
  lemma {:induction false} HasMaximum(s: set<int>)
    requires s != {}
    ensures exists m :: m in s && forall x :: x in s ==> x <= m
  {
    var y := Member(s);
    var rest := s - {y};
    if rest == {} {
      forall x | x in s ensures x <= y {
        assert x !in rest;
      }
      assert y in s;
    } else {
      HasMaximum(rest);
      var below :| below in rest && forall x :: x in rest ==> x <= below;
      var m := if y <= below then below else y;
      forall x | x in s ensures x <= m {
        if x != y {
          assert x in rest;
        }
      }
      assert m in s;
    }
  }

  /** The largest element of `s`, or `None` when `s` is empty. */
  ghost function Highest(s: set<int>): (r: Option<int>)
    ensures r.None? <==> s == {}
    ensures r.Some? ==> r.value in s && forall x :: x in s ==> x <= r.value
  {
    if s == {} then None
    else
      HasMaximum(s);
      var m :| m in s && forall x :: x in s ==> x <= m;
      Some(m)
  }
}
