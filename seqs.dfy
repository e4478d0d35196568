/** Generic operations on finite sequences that the dashboard's table
    transformations are built from: row selection, column projection and
    the first-appearance `unique()` of a column. */
module Seqs {

  /** No element occurs twice. */
  ghost predicate NoDup<T>(s: seq<T>) {
    forall i, j :: 0 <= i < j < |s| ==> s[i] != s[j]
  }

  function Min(a: int, b: int): int {
    if a <= b then a else b
  }

  /** Row selection `df[mask]`: keeps, in their order, the elements that
      satisfy `p`; every element keeps its multiplicity or is dropped. */
  function Filter<T(!new)>(s: seq<T>, p: T -> bool): (r: seq<T>)
    ensures |r| <= |s|
    ensures forall x :: x in r <==> x in s && p(x)
    ensures forall x :: multiset(r)[x] == if p(x) then multiset(s)[x] else 0
    decreases |s|
  {
    if s == [] then []
    else
      assert s == [s[0]] + s[1..];
      (if p(s[0]) then [s[0]] else []) + Filter(s[1..], p)
  }

  /** Column projection `df[col].values`. */
  function Project<T, U>(s: seq<T>, f: T -> U): (r: seq<U>)
    ensures |r| == |s|
    ensures forall i :: 0 <= i < |s| ==> r[i] == f(s[i])
  {
    seq(|s|, i requires 0 <= i < |s| => f(s[i]))
  }

  /** `[f(x) for x in s]` for an `f` defined on every element of `s`. */
  function Map<T, U>(s: seq<T>, f: T --> U): (r: seq<U>)
    requires forall i :: 0 <= i < |s| ==> f.requires(s[i])
    ensures |r| == |s|
    ensures forall i :: 0 <= i < |s| ==> r[i] == f(s[i])
  {
    seq(|s|, i requires 0 <= i < |s| => f(s[i]))
  }

  /** On a total function, `Map` is the column projection. */
  lemma MapOfTotal<T, U>(s: seq<T>, f: T -> U)
    ensures Map(s, f) == Project(s, f)
  {
  }

  /** A projected value comes from some element, and every element's value is there. */
  lemma ProjectMembership<T, U>(s: seq<T>, f: T -> U, y: U)
    ensures y in Project(s, f) <==> exists x :: x in s && f(x) == y
  {
    var r := Project(s, f);
    if y in r {
      var i :| 0 <= i < |r| && r[i] == y;
      assert s[i] in s && f(s[i]) == y;
    }
    if exists x :: x in s && f(x) == y {
      var x :| x in s && f(x) == y;
      var i :| 0 <= i < |s| && s[i] == x;
      assert r[i] == y;
    }
  }

  /** Position of the first occurrence of `x`. */
  function IndexOf<T(==)>(s: seq<T>, x: T): (i: nat)
    requires x in s
    ensures i < |s| && s[i] == x && x !in s[..i]
    decreases |s|
  {
    if s[0] == x then 0
    else
      var j := IndexOf(s[1..], x);
      assert s[..j + 1] == [s[0]] + s[1..][..j];
      j + 1
  }

  lemma IndexOfIsFirst<T>(s: seq<T>, x: T, i: nat)
    requires i < |s| && s[i] == x && x !in s[..i]
    ensures IndexOf(s, x) == i
  {
    var k := IndexOf(s, x);
  }

  /** `pandas.Series.unique()`: the distinct values in order of first appearance. */
  function Unique<T(==,!new)>(s: seq<T>): (r: seq<T>)
    ensures NoDup(r)
    ensures forall x :: x in r <==> x in s
    ensures forall i, j :: 0 <= i < j < |r| ==> IndexOf(s, r[i]) < IndexOf(s, r[j])
    decreases |s|
  {
    if s == [] then []
    else
      var p := s[..|s| - 1];
      var z := s[|s| - 1];
      var u := Unique(p);
      assert s == p + [z];
      UniquePrefixIndex(p, z);
      if z in u then u
      else
        IndexOfIsFirst(s, z, |p|);
        u + [z]
  }

  /** Appending an element does not move the first occurrence of an earlier one. */
  lemma UniquePrefixIndex<T>(p: seq<T>, z: T)
    ensures forall y :: y in p ==> IndexOf(p + [z], y) == IndexOf(p, y)
  {
    forall y | y in p
      ensures IndexOf(p + [z], y) == IndexOf(p, y)
    {
      var i := IndexOf(p, y);
      assert (p + [z])[..i] == p[..i];
      IndexOfIsFirst(p + [z], y, i);
    }
  }

  /** A sequence without duplicates has as many distinct elements as positions. */
  lemma {:induction false} NoDupCardinality<T>(s: seq<T>)
    requires NoDup(s)
    ensures |(set x | x in s)| == |s|
  {
    if s != [] {
      var t := s[1..];
      assert NoDup(t) by {
        forall i, j | 0 <= i < j < |t| ensures t[i] != t[j] {
          assert t[i] == s[i + 1] && t[j] == s[j + 1];
        }
      }
      NoDupCardinality(t);
      assert s[0] !in t by {
        forall i | 0 <= i < |t| ensures t[i] != s[0] {
          assert t[i] == s[i + 1];
        }
      }
      assert (set x | x in s) == {s[0]} + (set x | x in t) by {
        assert s == [s[0]] + t;
      }
    }
  }

  /** Without duplicates, nothing occurs more than once. */
  lemma {:induction false} NoDupCount<T>(s: seq<T>, x: T)
    requires NoDup(s)
    ensures multiset(s)[x] <= 1
  {
    if s != [] {
      var t := s[1..];
      assert s == [s[0]] + t;
      assert NoDup(t) by {
        forall i, j | 0 <= i < j < |t| ensures t[i] != t[j] {
          assert t[i] == s[i + 1] && t[j] == s[j + 1];
        }
      }
      NoDupCount(t, x);
      if x == s[0] {
        assert x !in t by {
          forall i | 0 <= i < |t| ensures t[i] != x {
            assert t[i] == s[i + 1];
          }
        }
      }
    }
  }

  /** An element occurring at most once cannot sit at two positions. */
  lemma CountOneDistinct<T>(s: seq<T>, i: int, j: int)
    requires 0 <= i < j < |s|
    requires multiset(s)[s[i]] <= 1
    ensures s[i] != s[j]
  {
    assert s == s[..j] + s[j..];
    assert s[i] in s[..j];
    assert s[j] in s[j..];
  }

  /** A permutation of a sequence without duplicates has none either. */
  lemma PermutationNoDup<T>(a: seq<T>, b: seq<T>)
    requires multiset(a) == multiset(b)
    requires NoDup(a)
    ensures NoDup(b)
  {
    forall i, j | 0 <= i < j < |b| ensures b[i] != b[j] {
      NoDupCount(a, b[i]);
      CountOneDistinct(b, i, j);
    }
  }
}
