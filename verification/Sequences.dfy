/** Filtering of sequences by a finite set: the algebra that the recency lists need. */
module Sequences {

  function Elems<T>(s: seq<T>): set<T> {
    set x | x in s
  }

  ghost predicate Distinct<T>(s: seq<T>) {
    forall i, j :: 0 <= i < j < |s| ==> s[i] != s[j]
  }

  /** The elements of s that lie in keep, in their original order. */
  function Keep<T(==)>(s: seq<T>, keep: set<T>): (r: seq<T>)
    ensures |r| <= |s|
  {
    if s == [] then []
    else if s[0] in keep then [s[0]] + Keep(s[1..], keep)
    else Keep(s[1..], keep)
  }

  lemma {:induction false} KeepMembers<T>(s: seq<T>, keep: set<T>)
    ensures forall x :: x in Keep(s, keep) <==> x in s && x in keep
  {
    if s != [] {
      KeepMembers(s[1..], keep);
    }
  }

  lemma {:induction false} KeepConcat<T>(s: seq<T>, t: seq<T>, keep: set<T>)
    ensures Keep(s + t, keep) == Keep(s, keep) + Keep(t, keep)
  {
    if s == [] {
      assert s + t == t;
    } else {
      KeepConcat(s[1..], t, keep);
      var u := s + t;
      assert u[1..] == s[1..] + t;
      assert u[0] == s[0];
    }
  }

  lemma {:induction false} KeepSame<T>(s: seq<T>, a: set<T>, b: set<T>)
    requires forall x :: x in s ==> (x in a <==> x in b)
    ensures Keep(s, a) == Keep(s, b)
  {
    if s != [] {
      KeepSame(s[1..], a, b);
    }
  }

  lemma {:induction false} KeepAll<T>(s: seq<T>, a: set<T>)
    requires forall x :: x in s ==> x in a
    ensures Keep(s, a) == s
  {
    if s != [] {
      KeepAll(s[1..], a);
    }
  }

  lemma {:induction false} KeepKeep<T>(s: seq<T>, a: set<T>, b: set<T>)
    ensures Keep(Keep(s, a), b) == Keep(s, a * b)
  {
    if s != [] {
      KeepKeep(s[1..], a, b);
    }
  }

  lemma {:induction false} KeepDistinct<T>(s: seq<T>, a: set<T>)
    requires Distinct(s)
    ensures Distinct(Keep(s, a))
  {
    if s != [] {
      KeepDistinct(s[1..], a);
      KeepMembers(s[1..], a);
    }
  }

  /** Dropping the last element of a duplicate-free sequence is a filter. */
  lemma {:induction false} KeepButLast<T>(s: seq<T>, a: set<T>)
    requires s != [] && Distinct(s)
    requires forall x :: x in s ==> (x in a <==> x != s[|s| - 1])
    ensures Keep(s, a) == s[..|s| - 1]
  {
    var front, last := s[..|s| - 1], s[|s| - 1];
    assert s == front + [last];
    KeepConcat(front, [last], a);
    KeepAll(front, a);
  }

  /** Filtering two lists, one a filter of the other, never widens the gap between their lengths. */
  lemma {:induction false} KeepSurplus<T>(s: seq<T>, a: set<T>, u: set<T>)
    ensures |Keep(s, u)| - |Keep(Keep(s, a), u)| <= |s| - |Keep(s, a)|
  {
    if s != [] {
      KeepSurplus(s[1..], a, u);
      if s[0] in a {
        assert Keep(s, a)[1..] == Keep(s[1..], a);
      }
    }
  }

  /** Removing one element that occurs in a duplicate-free sequence shortens it by one. */
  lemma {:induction false} KeepRemoveOne<T>(s: seq<T>, a: set<T>, x: T)
    requires Distinct(s) && x in s
    requires forall y :: y in s ==> (y in a <==> y != x)
    ensures |Keep(s, a)| == |s| - 1
  {
    if s[0] == x {
      KeepAll(s[1..], a);
    } else {
      KeepRemoveOne(s[1..], a, x);
    }
  }

  lemma {:induction false} DistinctTail<T>(x: T, rest: seq<T>)
    requires Distinct([x] + rest)
    ensures Distinct(rest)
  {
    assert rest == ([x] + rest)[1..];
  }
}
