/** Orderings used by the dashboard: Python's string comparison, integer
    comparison of day numbers, `sorted(set(...))` and a descending sort on an
    integer key (`sort_values(..., ascending=False)`). */
module Order {

  import Seqs

  ghost predicate StrictTotalOrder<T(!new)>(lt: (T, T) -> bool) {
    && (forall x :: !lt(x, x))
    && (forall x, y, z :: lt(x, y) && lt(y, z) ==> lt(x, z))
    && (forall x, y :: x != y ==> lt(x, y) || lt(y, x))
  }

  /** Strictly ascending: sorted and without duplicates. */
  ghost predicate Ascending<T>(s: seq<T>, lt: (T, T) -> bool) {
    forall i, j :: 0 <= i < j < |s| ==> lt(s[i], s[j])
  }

  /** Python's `<` on `str`: `a` comes first when, after their longest common
      prefix, `a` ends while `b` goes on, or `a`'s next code point is smaller. */
  function StrLess(a: string, b: string): (r: bool)
    ensures r <==> exists k :: 0 <= k <= |a| && k <= |b| && a[..k] == b[..k] && FirstDiffers(a, b, k)
    decreases |a|
  {
    if a == [] then
      assert FirstDiffers(a, b, 0) <==> b != [];
      b != []
    else if b == [] then
      false
    else if a[0] != b[0] then
      assert FirstDiffers(a, b, 0) <==> a[0] < b[0];
      assert forall k :: 0 < k <= |a| && k <= |b| ==> a[..k][0] == a[0] && b[..k][0] == b[0];
      a[0] < b[0]
    else
      var r := StrLess(a[1..], b[1..]);
      StrLessShift(a, b);
      r
  }

  /** At position `k`, `a` has ended while `b` goes on, or `a` has the smaller code point. */
  predicate FirstDiffers(a: string, b: string, k: nat) {
    (k == |a| && k < |b|) || (k < |a| && k < |b| && a[k] < b[k])
  }

  /** With equal first characters, a witness position for the tails shifts
      by one to a witness position for the strings. */
  lemma StrLessShift(a: string, b: string)
    requires a != [] && b != [] && a[0] == b[0]
    ensures (exists k :: 0 <= k <= |a| && k <= |b| && a[..k] == b[..k] && FirstDiffers(a, b, k))
        <==> (exists k :: 0 <= k <= |a[1..]| && k <= |b[1..]| && a[1..][..k] == b[1..][..k] && FirstDiffers(a[1..], b[1..], k))
  {
    if exists k :: 0 <= k <= |a| && k <= |b| && a[..k] == b[..k] && FirstDiffers(a, b, k) {
      var k :| 0 <= k <= |a| && k <= |b| && a[..k] == b[..k] && FirstDiffers(a, b, k);
      assert k != 0;
      assert a[1..][..k - 1] == a[..k][1..] && b[1..][..k - 1] == b[..k][1..];
      assert FirstDiffers(a[1..], b[1..], k - 1);
    }
    if exists k :: 0 <= k <= |a[1..]| && k <= |b[1..]| && a[1..][..k] == b[1..][..k] && FirstDiffers(a[1..], b[1..], k) {
      var k :| 0 <= k <= |a[1..]| && k <= |b[1..]| && a[1..][..k] == b[1..][..k] && FirstDiffers(a[1..], b[1..], k);
      assert a[..k + 1] == [a[0]] + a[1..][..k] && b[..k + 1] == [b[0]] + b[1..][..k];
      assert FirstDiffers(a, b, k + 1);
    }
  }

  predicate IntLess(a: int, b: int) {
    a < b
  }

  lemma {:induction false} StrLessIrreflexive(a: string)
    ensures !StrLess(a, a)
    decreases |a|
  {
    if a != [] {
      StrLessIrreflexive(a[1..]);
    }
  }

  lemma {:induction false} StrLessTransitive(a: string, b: string, c: string)
    requires StrLess(a, b) && StrLess(b, c)
    ensures StrLess(a, c)
    decreases |a|
  {
    if a != [] && b != [] && c != [] && a[0] == b[0] && b[0] == c[0] {
      StrLessTransitive(a[1..], b[1..], c[1..]);
    }
  }

  lemma {:induction false} StrLessTotal(a: string, b: string)
    requires a != b
    ensures StrLess(a, b) || StrLess(b, a)
    decreases |a|
  {
    if a != [] && b != [] && a[0] == b[0] {
      assert a == [a[0]] + a[1..] && b == [b[0]] + b[1..];
      StrLessTotal(a[1..], b[1..]);
    }
  }

  lemma StrLessIsStrictTotalOrder()
    ensures StrictTotalOrder(StrLess)
  {
    forall a ensures !StrLess(a, a) {
      StrLessIrreflexive(a);
    }
    forall a, b, c | StrLess(a, b) && StrLess(b, c) ensures StrLess(a, c) {
      StrLessTransitive(a, b, c);
    }
    forall a, b | a != b ensures StrLess(a, b) || StrLess(b, a) {
      StrLessTotal(a, b);
    }
  }

  lemma IntLessIsStrictTotalOrder()
    ensures StrictTotalOrder(IntLess)
  {
  }

  /** Inserts `x` into a strictly ascending sequence unless it is already there. */
  function Insert<T(==,!new)>(s: seq<T>, x: T, lt: (T, T) -> bool): (r: seq<T>)
    requires StrictTotalOrder(lt) && Ascending(s, lt)
    ensures Ascending(r, lt)
    ensures forall y :: y in r <==> y == x || y in s
    decreases |s|
  {
    if s == [] then [x]
    else if x == s[0] then s
    else if lt(x, s[0]) then [x] + s
    else
      var t := Insert(s[1..], x, lt);
      assert forall y :: y in t ==> lt(s[0], y);
      [s[0]] + t
  }

  /** `sorted(set(s))`: the distinct elements of `s` in ascending order. */
  function SortedSet<T(==,!new)>(s: seq<T>, lt: (T, T) -> bool): (r: seq<T>)
    requires StrictTotalOrder(lt)
    ensures Ascending(r, lt)
    ensures forall y :: y in r <==> y in s
    decreases |s|
  {
    if s == [] then [] else Insert(SortedSet(s[1..], lt), s[0], lt)
  }

  lemma AscendingNoDup<T(!new)>(s: seq<T>, lt: (T, T) -> bool)
    requires StrictTotalOrder(lt) && Ascending(s, lt)
    ensures Seqs.NoDup(s)
  {
  }

  /** Non-increasing in `key` down the sequence. */
  ghost predicate Descending<T>(s: seq<T>, key: T -> int) {
    forall i, j :: 0 <= i < j < |s| ==> key(s[i]) >= key(s[j])
  }

  /** Places `x` before the first element whose key does not exceed its own. */
  function InsertDesc<T>(s: seq<T>, x: T, key: T -> int): (r: seq<T>)
    requires Descending(s, key)
    ensures Descending(r, key)
    ensures forall y :: y in r ==> y == x || y in s
    ensures multiset(r) == multiset(s) + multiset{x}
    decreases |s|
  {
    if s == [] || key(x) >= key(s[0]) then
      ConsDescending(x, s, key);
      [x] + s
    else
      var rest := s[1..];
      assert s == [s[0]] + rest;
      assert Descending(rest, key) by {
        forall i, j | 0 <= i < j < |rest| ensures key(rest[i]) >= key(rest[j]) {
          assert rest[i] == s[i + 1] && rest[j] == s[j + 1];
        }
      }
      var t := InsertDesc(rest, x, key);
      forall i | 0 <= i < |t| ensures key(s[0]) >= key(t[i]) {
        assert t[i] in t;
        if t[i] != x {
          var k :| 0 <= k < |rest| && rest[k] == t[i];
          assert rest[k] == s[k + 1];
        }
      }
      ConsDescending(s[0], t, key);
      [s[0]] + t
  }

  /** An element whose key is at least every key of a descending sequence
      can head it. */
  lemma ConsDescending<T>(h: T, t: seq<T>, key: T -> int)
    requires Descending(t, key)
    requires forall i :: 0 <= i < |t| ==> key(h) >= key(t[i])
    ensures Descending([h] + t, key)
  {
    var r := [h] + t;
    forall i, j | 0 <= i < j < |r| ensures key(r[i]) >= key(r[j]) {
      assert r[j] == t[j - 1];
      if i > 0 {
        assert r[i] == t[i - 1];
      }
    }
  }

  /** `sort_values(key, ascending=False)`: a permutation of `s` whose keys do
      not increase. Among equal keys this insertion sort keeps input order. */
  function SortDesc<T>(s: seq<T>, key: T -> int): (r: seq<T>)
    ensures Descending(r, key)
    ensures multiset(r) == multiset(s)
    decreases |s|
  {
    if s == [] then []
    else
      assert s == [s[0]] + s[1..];
      InsertDesc(SortDesc(s[1..], key), s[0], key)
  }
}
