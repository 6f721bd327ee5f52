/**
 * Array.prototype.sort with the comparator (a, b) => b.createdAt - a.createdAt:
 * a stable sort that lists records newest first. Records with the same
 * timestamp keep the order they had (Map insertion order).
 */
module NewestFirst {

  /** s lists its elements with non-increasing stamps. */
  ghost predicate IsNewestFirst<T>(s: seq<T>, stamp: T -> int) {
    forall i, j :: 0 <= i < j < |s| ==> stamp(s[i]) >= stamp(s[j])
  }

  /** The elements of s that carry stamp v, in the order s has them. */
  function WithStamp<T>(s: seq<T>, stamp: T -> int, v: int): seq<T> {
    if s == [] then []
    else if stamp(s[0]) == v then [s[0]] + WithStamp(s[1..], stamp, v)
    else WithStamp(s[1..], stamp, v)
  }

  /** Puts x in front of the first element of s that is not newer than x. */
  function Insert<T>(x: T, s: seq<T>, stamp: T -> int): (r: seq<T>)
    ensures multiset(r) == multiset(s) + multiset{x}
    ensures |r| == |s| + 1
    ensures r[0] == x || (s != [] && r[0] == s[0])
    ensures IsNewestFirst(s, stamp) ==> IsNewestFirst(r, stamp)
  {
    if s == [] || stamp(x) >= stamp(s[0]) then
      ConsNewestFirst(x, s, stamp);
      [x] + s
    else
      assert s == [s[0]] + s[1..];
      var t := Insert(x, s[1..], stamp);
      InsertedTailNotNewer(x, s, t, stamp);
      [s[0]] + t
  }

  /** Putting in front an element at least as new as the front keeps the order. */
  lemma ConsNewestFirst<T>(x: T, s: seq<T>, stamp: T -> int)
    requires s == [] || stamp(x) >= stamp(s[0])
    ensures IsNewestFirst(s, stamp) ==> IsNewestFirst([x] + s, stamp)
  {
  }

  /** The tail built by inserting x behind the newer head s[0] keeps the order. */
  lemma InsertedTailNotNewer<T>(x: T, s: seq<T>, t: seq<T>, stamp: T -> int)
    requires s != [] && stamp(x) < stamp(s[0])
    requires multiset(t) == multiset(s[1..]) + multiset{x}
    requires IsNewestFirst(s, stamp) ==> IsNewestFirst(t, stamp)
    ensures IsNewestFirst(s, stamp) ==> IsNewestFirst([s[0]] + t, stamp)
  {
    if IsNewestFirst(s, stamp) {
      forall y | y in t ensures stamp(y) <= stamp(s[0]) {
        assert y in multiset(t);
        if y != x {
          assert y in multiset(s[1..]);
          var i :| 1 <= i < |s| && s[i] == y by {
            assert y in s[1..];
          }
        }
      }
      forall i, j | 0 <= i < j < |[s[0]] + t|
        ensures stamp(([s[0]] + t)[i]) >= stamp(([s[0]] + t)[j])
      {
        if i == 0 { assert ([s[0]] + t)[j] == t[j - 1]; assert t[j - 1] in t; }
        else { assert ([s[0]] + t)[i] == t[i - 1] && ([s[0]] + t)[j] == t[j - 1]; }
      }
    }
  }

  /** The stable newest-first order of s. */
  function SortNewestFirst<T>(s: seq<T>, stamp: T -> int): (r: seq<T>)
    ensures multiset(r) == multiset(s)
    ensures IsNewestFirst(r, stamp)
  {
    if s == [] then []
    else
      assert s == [s[0]] + s[1..];
      Insert(s[0], SortNewestFirst(s[1..], stamp), stamp)
  }

  lemma {:induction false} InsertKeepsTies<T>(x: T, s: seq<T>, stamp: T -> int, v: int)
    ensures WithStamp(Insert(x, s, stamp), stamp, v) == WithStamp([x] + s, stamp, v)
    decreases |s|
  {
    if s == [] || stamp(x) >= stamp(s[0]) {
    } else {
      var r := Insert(x, s[1..], stamp);
      assert ([s[0]] + r)[1..] == r;
      InsertKeepsTies(x, s[1..], stamp, v);
      assert ([x] + s[1..])[1..] == s[1..];
      assert ([x] + s)[1..] == s;
      if stamp(x) == v {
        assert stamp(s[0]) != v;
      }
    }
  }

  /** The sort is stable: records with equal stamps keep their relative order. */
  lemma {:induction false} SortIsStable<T>(s: seq<T>, stamp: T -> int, v: int)
    ensures WithStamp(SortNewestFirst(s, stamp), stamp, v) == WithStamp(s, stamp, v)
    decreases |s|
  {
    if s != [] {
      var rest := SortNewestFirst(s[1..], stamp);
      InsertKeepsTies(s[0], rest, stamp, v);
      SortIsStable(s[1..], stamp, v);
      assert ([s[0]] + rest)[1..] == rest;
      assert s == [s[0]] + s[1..];
    }
  }

  /** A record strictly newer than all others is listed first. */
  lemma NewestComesFirst<T>(s: seq<T>, v: T, stamp: T -> int)
    requires forall x :: x in s ==> stamp(x) < stamp(v)
    ensures SortNewestFirst(s + [v], stamp)[0] == v
  {
    var r := SortNewestFirst(s + [v], stamp);
    assert v in multiset(r);
    var j :| 0 <= j < |r| && r[j] == v;
    assert r[0] in multiset(s + [v]);
  }
}
