/** Sorting by a comparison that is only known to be a total preorder: the shape of
    `Array.prototype.sort` with a comparator, used for the seat recap and the genre menu. */
module Sorting {

  ghost predicate TotalPreorder<T(!new)>(le: (T, T) -> bool) {
    && (forall a, b :: le(a, b) || le(b, a))
    && (forall a, b, c :: le(a, b) && le(b, c) ==> le(a, c))
  }

  predicate SortedBy<T>(s: seq<T>, le: (T, T) -> bool) {
    forall i, j :: 0 <= i < j < |s| ==> le(s[i], s[j])
  }

  /** Inserts `x` into `s` in front of the first element it is not after. */
  function Insert<T(!new)>(x: T, s: seq<T>, le: (T, T) -> bool): (r: seq<T>)
    requires TotalPreorder(le)
    ensures multiset(r) == multiset(s) + multiset{x}
    ensures SortedBy(s, le) ==> SortedBy(r, le)
  {
    if s == [] then [x]
    else if le(x, s[0]) then [x] + s
    else
      var t := Insert(x, s[1..], le);
      assert s == [s[0]] + s[1..];
      HeadBeforeAll(s, x, t, le);
      if SortedBy(s, le) then ConsSorted(s[0], t, le); [s[0]] + t
      else [s[0]] + t
  }

  lemma ConsSorted<T>(h: T, t: seq<T>, le: (T, T) -> bool)
    requires SortedBy(t, le) && forall k :: 0 <= k < |t| ==> le(h, t[k])
    ensures SortedBy([h] + t, le)
  {
    var r := [h] + t;
    forall i, j | 0 <= i < j < |r| ensures le(r[i], r[j]) {
      assert r[j] == t[j - 1];
      if i > 0 {
        assert r[i] == t[i - 1];
      }
    }
  }

  /** The head of a sorted list, not after `x`, comes before everything in the rest
      of the list with `x` added. */
  lemma HeadBeforeAll<T(!new)>(s: seq<T>, x: T, t: seq<T>, le: (T, T) -> bool)
    requires TotalPreorder(le) && s != [] && !le(x, s[0])
    requires multiset(t) == multiset(s[1..]) + multiset{x}
    ensures SortedBy(s, le) ==> forall k :: 0 <= k < |t| ==> le(s[0], t[k])
  {
    forall k | 0 <= k < |t| && SortedBy(s, le) ensures le(s[0], t[k]) {
      assert t[k] in multiset(t);
      if t[k] != x {
        assert t[k] in multiset(s[1..]);
        var j :| 0 <= j < |s| - 1 && s[1..][j] == t[k];
        assert s[j + 1] == t[k];
      }
    }
  }

  /** The elements of `s` in an order sorted by `le`, each once. */
  method SortSet<T(==,!new)>(s: set<T>, le: (T, T) -> bool) returns (r: seq<T>)
    requires TotalPreorder(le)
    ensures SortedBy(r, le)
    ensures |r| == |s|
    ensures forall x :: x in r <==> x in s
  {
    var rest := s;
    r := [];
    while rest != {}
      invariant rest <= s
      invariant SortedBy(r, le)
      invariant forall x :: x in r <==> x in s && x !in rest
      invariant |r| + |rest| == |s|
      decreases |rest|
    {
      var x :| x in rest;
      assert x !in r;
      r := Insert(x, r, le);
      assert forall y :: y in r <==> y in multiset(r);
      rest := rest - {x};
    }
  }
}
