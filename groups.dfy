/** The pandas aggregations the dashboard uses, on sequences of rows: the
    `sum` of a column, the rows of one `groupby` group, and the per-group
    `sum` / `count` (a count is a sum of `Once`). */
module Groups {

  import opened Seqs

  /** Weight of a row when counting it. */
  function Once<T>(x: T): nat {
    1
  }

  /** `df[col].sum()`, with `w` reading the column: no value exceeds it. */
  function Total<T>(s: seq<T>, w: T -> nat): (t: nat)
    ensures forall i :: 0 <= i < |s| ==> w(s[i]) <= t
    decreases |s|
  {
    if s == [] then 0
    else
      var rest := Total(s[1..], w);
      assert forall i :: 1 <= i < |s| ==> s[i] == s[1..][i - 1];
      w(s[0]) + rest
  }

  /** The rows of the group `k` of `groupby(key)`, in ledger order. */
  function Where<T(!new), K(==)>(s: seq<T>, key: T -> K, k: K): seq<T>
  {
    Filter(s, x => key(x) == k)
  }

  lemma WhereMembers<T(!new), K>(s: seq<T>, key: T -> K, k: K)
    ensures forall x :: x in Where(s, key, k) <==> x in s && key(x) == k
  {
  }

  lemma WhereStep<T(!new), K>(s: seq<T>, key: T -> K, k: K)
    requires s != []
    ensures Where(s, key, k) == (if key(s[0]) == k then [s[0]] else []) + Where(s[1..], key, k)
  {
  }

  /** `groupby(key)[col].sum()` at the group `k` (with `Once`: `count()`):
      a group's sum is never more than the column's sum. */
  function GroupSum<T, K(==)>(s: seq<T>, key: T -> K, k: K, w: T -> nat): (g: nat)
    ensures g <= Total(s, w)
    decreases |s|
  {
    if s == [] then 0
    else (if key(s[0]) == k then w(s[0]) else 0) + GroupSum(s[1..], key, k, w)
  }

  lemma GroupSumOfOne<T, K>(x: T, key: T -> K, k: K, w: T -> nat)
    ensures GroupSum([x], key, k, w) == if key(x) == k then w(x) else 0
  {
    assert [x][1..] == [];
  }

  /** The per-group sums for the groups `ks`, in that order. */
  function GroupSums<T, K(==)>(s: seq<T>, key: T -> K, ks: seq<K>, w: T -> nat): (r: seq<nat>)
    ensures |r| == |ks|
    ensures forall i :: 0 <= i < |ks| ==> r[i] == GroupSum(s, key, ks[i], w)
  {
    seq(|ks|, i requires 0 <= i < |ks| => GroupSum(s, key, ks[i], w))
  }

  function Sum(xs: seq<nat>): nat
    decreases |xs|
  {
    if xs == [] then 0 else xs[0] + Sum(xs[1..])
  }

  /** Summing a column through `w` is summing the projected column. */
  lemma {:induction false} TotalIsSumOfColumn<T>(s: seq<T>, w: T -> nat)
    ensures Total(s, w) == Sum(Project(s, w))
    decreases |s|
  {
    if s != [] {
      TotalIsSumOfColumn(s[1..], w);
      assert Project(s, w)[1..] == Project(s[1..], w);
    }
  }

  /** Floating-point `a / b` of two counts, before any rounding. */
  function Quotient(a: nat, b: nat): real
    requires b > 0
  {
    a as real / b as real
  }

  /** Multiplying back by the divisor recovers the dividend. */
  lemma QuotientTimesDivisor(a: nat, b: nat)
    requires b > 0
    ensures Quotient(a, b) * b as real == a as real
  {
  }

  /** Dividing by the same positive number keeps the order. */
  lemma QuotientMonotone(a: nat, c: nat, b: nat)
    requires b > 0 && a <= c
    ensures Quotient(a, b) <= Quotient(c, b)
  {
    assert Quotient(c, b) - Quotient(a, b) == (c - a) as real / b as real;
  }

  /** `max()` of a non-empty column. */
  function Max(xs: seq<int>): (m: int)
    requires xs != []
    ensures m in xs
    ensures forall x :: x in xs ==> x <= m
    decreases |xs|
  {
    if |xs| == 1 then xs[0]
    else
      var m := Max(xs[1..]);
      assert xs == [xs[0]] + xs[1..];
      if xs[0] >= m then xs[0] else m
  }

  lemma {:induction false} TotalOnce<T>(s: seq<T>)
    ensures Total(s, Once) == |s|
    decreases |s|
  {
    if s != [] {
      TotalOnce(s[1..]);
    }
  }

  lemma {:induction false} GroupSumAppend<T, K>(a: seq<T>, b: seq<T>, key: T -> K, k: K, w: T -> nat)
    ensures GroupSum(a + b, key, k, w) == GroupSum(a, key, k, w) + GroupSum(b, key, k, w)
    decreases |a|
  {
    if a != [] {
      assert (a + b)[1..] == a[1..] + b;
      GroupSumAppend(a[1..], b, key, k, w);
    } else {
      assert a + b == b;
    }
  }

  lemma {:induction false} TotalAppend<T>(a: seq<T>, b: seq<T>, w: T -> nat)
    ensures Total(a + b, w) == Total(a, w) + Total(b, w)
    decreases |a|
  {
    if a != [] {
      assert (a + b)[1..] == a[1..] + b;
      TotalAppend(a[1..], b, w);
    } else {
      assert a + b == b;
    }
  }

  /** Summing a group is summing the rows that `groupby` puts in it. */
  lemma {:induction false} GroupSumIsTotalOfGroup<T(!new), K>(s: seq<T>, key: T -> K, k: K, w: T -> nat)
    ensures GroupSum(s, key, k, w) == Total(Where(s, key, k), w)
    decreases |s|
  {
    if s != [] {
      var head := if key(s[0]) == k then [s[0]] else [];
      WhereStep(s, key, k);
      TotalAppend(head, Where(s[1..], key, k), w);
      GroupSumIsTotalOfGroup(s[1..], key, k, w);
    }
  }

  /** When every row is in group `k`, the group's sum is the column's sum. */
  lemma {:induction false} GroupSumOfSingleGroup<T, K>(s: seq<T>, key: T -> K, k: K, w: T -> nat)
    requires forall x :: x in s ==> key(x) == k
    ensures GroupSum(s, key, k, w) == Total(s, w)
    decreases |s|
  {
    if s != [] {
      assert s[0] in s;
      GroupSumOfSingleGroup(s[1..], key, k, w);
    }
  }

  /** Peeling the first row off a group of a sub-selection. */
  lemma GroupSumOfSelectionStep<T(!new), K1, K2>(
    s: seq<T>, key1: T -> K1, a: K1, key2: T -> K2, b: K2, w: T -> nat)
    requires s != []
    ensures GroupSum(Where(s, key1, a), key2, b, w)
         == GroupSum(Where(s[1..], key1, a), key2, b, w)
            + (if key1(s[0]) == a && key2(s[0]) == b then w(s[0]) else 0)
  {
    var head := if key1(s[0]) == a then [s[0]] else [];
    WhereStep(s, key1, a);
    GroupSumAppend(head, Where(s[1..], key1, a), key2, b, w);
    GroupSumOfOne(s[0], key2, b, w);
  }

  /** Grouping by one key and then by another counts the same rows as the
      other way round. */
  lemma {:induction false} GroupSumCommutes<T(!new), K1, K2>(
    s: seq<T>, key1: T -> K1, a: K1, key2: T -> K2, b: K2, w: T -> nat)
    ensures GroupSum(Where(s, key1, a), key2, b, w) == GroupSum(Where(s, key2, b), key1, a, w)
    decreases |s|
  {
    if s != [] {
      GroupSumOfSelectionStep(s, key1, a, key2, b, w);
      GroupSumOfSelectionStep(s, key2, b, key1, a, w);
      GroupSumCommutes(s[1..], key1, a, key2, b, w);
    }
  }

  /** A group of a sub-selection is no larger than the same group of the whole. */
  lemma {:induction false} GroupSumOfSelection<T(!new), K1, K2>(
    s: seq<T>, key1: T -> K1, a: K1, key2: T -> K2, b: K2, w: T -> nat)
    ensures GroupSum(Where(s, key1, a), key2, b, w) <= GroupSum(s, key2, b, w)
    decreases |s|
  {
    if s != [] {
      GroupSumOfSelectionStep(s, key1, a, key2, b, w);
      GroupSumOfSelection(s[1..], key1, a, key2, b, w);
    }
  }

  /** A group without rows sums to zero. */
  lemma {:induction false} GroupSumOfAbsentGroup<T, K>(s: seq<T>, key: T -> K, k: K, w: T -> nat)
    requires forall x :: x in s ==> key(x) != k
    ensures GroupSum(s, key, k, w) == 0
    decreases |s|
  {
    if s != [] {
      assert s[0] in s;
      GroupSumOfAbsentGroup(s[1..], key, k, w);
    }
  }

  /** A group's sum includes each of its rows. */
  lemma {:induction false} GroupSumIncludes<T, K>(s: seq<T>, key: T -> K, x: T, w: T -> nat)
    requires x in s
    ensures GroupSum(s, key, key(x), w) >= w(x)
    decreases |s|
  {
    if s[0] != x {
      GroupSumIncludes(s[1..], key, x, w);
    }
  }

  lemma {:induction false} SumGroupSumsOfEmpty<T, K>(key: T -> K, ks: seq<K>, w: T -> nat)
    ensures Sum(GroupSums([], key, ks, w)) == 0
    decreases |ks|
  {
    if ks != [] {
      assert GroupSums([], key, ks, w)[1..] == GroupSums([], key, ks[1..], w);
      SumGroupSumsOfEmpty(key, ks[1..], w);
    }
  }

  /** Removing the first row lowers the sum over distinct groups by that row's
      weight exactly when its group is one of them. */
  lemma {:induction false} SumGroupSumsStep<T, K>(s: seq<T>, key: T -> K, ks: seq<K>, w: T -> nat)
    requires s != [] && NoDup(ks)
    ensures Sum(GroupSums(s, key, ks, w))
         == Sum(GroupSums(s[1..], key, ks, w)) + (if key(s[0]) in ks then w(s[0]) else 0)
    decreases |ks|
  {
    if ks != [] {
      var tail := ks[1..];
      assert NoDup(tail) by {
        forall i, j | 0 <= i < j < |tail| ensures tail[i] != tail[j] {
          assert tail[i] == ks[i + 1] && tail[j] == ks[j + 1];
        }
      }
      assert ks[0] !in tail by {
        forall i | 0 <= i < |tail| ensures tail[i] != ks[0] {
          assert tail[i] == ks[i + 1];
        }
      }
      assert GroupSums(s, key, ks, w)[1..] == GroupSums(s, key, tail, w);
      assert GroupSums(s[1..], key, ks, w)[1..] == GroupSums(s[1..], key, tail, w);
      SumGroupSumsStep(s, key, tail, w);
      assert key(s[0]) in ks <==> key(s[0]) == ks[0] || key(s[0]) in tail by {
        assert ks == [ks[0]] + tail;
      }
    }
  }

  /** `groupby` partitions the rows: when every row's group is listed once,
      the group sums add up to the column's sum. */
  lemma {:induction false} GroupSumsPartitionTotal<T, K>(s: seq<T>, key: T -> K, ks: seq<K>, w: T -> nat)
    requires NoDup(ks)
    requires forall x :: x in s ==> key(x) in ks
    ensures Sum(GroupSums(s, key, ks, w)) == Total(s, w)
    decreases |s|
  {
    if s == [] {
      SumGroupSumsOfEmpty(key, ks, w);
    } else {
      assert s[0] in s;
      SumGroupSumsStep(s, key, ks, w);
      GroupSumsPartitionTotal(s[1..], key, ks, w);
    }
  }
}
