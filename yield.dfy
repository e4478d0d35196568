/** `estimate_yield`: what one slaughtered animal yields. The ledger rows of
    one category sold between two dates (both included) are summed in the
    chosen unit (pounds or dollars), either as one total or per Tier or Item,
    and divided by the number of animals; grouped results are ranked largest
    first and cut to the top ten bars. */
module Yield {

  import opened Seqs
  import opened Order
  import opened Groups
  import opened Ledger

  /** The "Units" radio: pounds select Weight, dollars select Net Sales. */
  datatype Units = Lbs | Dollars

  /** The "Group by" radio. */
  datatype Grouping = TierGroups | ItemGroups | Overall

  /** One group's summed column. */
  datatype GroupTotal = GroupTotal(key: string, total: nat)

  /** One bar: a group and its yield per animal. */
  datatype Entry = Entry(key: string, value: real)

  /** The pie of a single total, or the bars of the ranked groups. */
  datatype Estimate = TotalEstimate(value: real) | TopGroups(entries: seq<Entry>)

  /** The most bars shown (`by_tier.index[:10]`). */
  const TOP_GROUPS: nat := 10

  function Column(units: Units): Record -> nat {
    match units
    case Lbs => RecordWeight
    case Dollars => RecordNetSales
  }

  function GroupKey(grouping: Grouping): Record -> string
    requires grouping != Overall
  {
    match grouping
    case TierGroups => RecordTier
    case ItemGroups => RecordItem
  }

  /** `df[(Date >= start) & (Date <= end) & (Category == category)]`. */
  function YieldRows(ledger: seq<Record>, start: int, end: int, category: string): (v: seq<Record>)
    ensures forall x :: multiset(v)[x] ==
                          if start <= x.date <= end && x.category == category then multiset(ledger)[x] else 0
  {
    Filter(ledger, (r: Record) => start <= r.date <= end && r.category == category)
  }

  function KeyOf(g: GroupTotal): string { g.key }

  function TotalOf(g: GroupTotal): int { g.total }

  /** The keys of a list of group totals, in order. */
  function Keys(gs: seq<GroupTotal>): (ks: seq<string>)
    ensures |ks| == |gs|
    ensures forall i :: 0 <= i < |gs| ==> ks[i] == gs[i].key
  {
    Project(gs, KeyOf)
  }

  /** The totals of a list of group totals, in order. */
  function Totals(gs: seq<GroupTotal>): (ts: seq<nat>)
    ensures |ts| == |gs|
    ensures forall i :: 0 <= i < |gs| ==> ts[i] == gs[i].total
  {
    seq(|gs|, i requires 0 <= i < |gs| => gs[i].total)
  }

  /** `groupby(key)[col].sum()`: one total per distinct key, keys ascending. */
  function GroupTotals(rows: seq<Record>, key: Record -> string, w: Record -> nat): (gs: seq<GroupTotal>)
    ensures Ascending(Keys(gs), StrLess)
    ensures forall k :: (exists r :: r in rows && key(r) == k) <==> GroupTotal(k, GroupSum(rows, key, k, w)) in gs
    ensures forall g :: g in gs ==> g.total == GroupSum(rows, key, g.key, w)
    ensures |gs| == |(set r | r in rows :: key(r))|
  {
    StrLessIsStrictTotalOrder();
    var keys := SortedSet(Project(rows, key), StrLess);
    var gs := seq(|keys|, i requires 0 <= i < |keys| => GroupTotal(keys[i], GroupSum(rows, key, keys[i], w)));
    assert Keys(gs) == keys;
    assert |keys| == |(set r | r in rows :: key(r))| by {
      AscendingNoDup(keys, StrLess);
      NoDupCardinality(keys);
      forall k ensures k in keys <==> exists r :: r in rows && key(r) == k {
        ProjectMembership(rows, key, k);
      }
      assert (set k | k in keys) == (set r | r in rows :: key(r));
    }
    forall k ensures (exists r :: r in rows && key(r) == k) <==> GroupTotal(k, GroupSum(rows, key, k, w)) in gs {
      ProjectMembership(rows, key, k);
      if k in keys {
        var i :| 0 <= i < |keys| && keys[i] == k;
        assert gs[i] == GroupTotal(k, GroupSum(rows, key, k, w));
      }
    }
    gs
  }

  /** `sort_values(ascending=False)` of the group totals. */
  function Ranked(rows: seq<Record>, key: Record -> string, w: Record -> nat): (gs: seq<GroupTotal>)
    ensures Descending(gs, TotalOf)
    ensures multiset(gs) == multiset(GroupTotals(rows, key, w))
  {
    SortDesc(GroupTotals(rows, key, w), TotalOf)
  }

  /** The bars: the first ten ranked groups, each divided by `n`. */
  function TopEntries(rows: seq<Record>, key: Record -> string, w: Record -> nat, n: nat): (es: seq<Entry>)
    requires n > 0
    ensures |es| == Min(|Ranked(rows, key, w)|, TOP_GROUPS)
    ensures forall i :: 0 <= i < |es| ==>
      es[i] == Entry(Ranked(rows, key, w)[i].key, Quotient(Ranked(rows, key, w)[i].total, n))
  {
    var ranked := Ranked(rows, key, w);
    var shown := Min(|ranked|, TOP_GROUPS);
    seq(shown, i requires 0 <= i < shown => Entry(ranked[i].key, Quotient(ranked[i].total, n)))
  }

  /** The callback. `int(num_animals)` must be a positive number of animals. */
  function EstimateYield(ledger: seq<Record>, start: int, end: int, category: string,
                         units: Units, grouping: Grouping, n: nat): (e: Estimate)
    requires n > 0
    ensures grouping == Overall ==>
      e == TotalEstimate(Quotient(Total(YieldRows(ledger, start, end, category), Column(units)), n))
    ensures grouping != Overall ==>
      e == TopGroups(TopEntries(YieldRows(ledger, start, end, category), GroupKey(grouping), Column(units), n))
  {
    var rows := YieldRows(ledger, start, end, category);
    if grouping == Overall then TotalEstimate(Quotient(Total(rows, Column(units)), n))
    else TopGroups(TopEntries(rows, GroupKey(grouping), Column(units), n))
  }

  /** The rows kept are exactly the category's rows dated from `start` to
      `end`, both included; a range that ends before it starts keeps none. */
  lemma YieldRowsExact(ledger: seq<Record>, start: int, end: int, category: string, r: Record)
    ensures r in YieldRows(ledger, start, end, category) <==>
      r in ledger && start <= r.date <= end && r.category == category
    ensures end < start ==> YieldRows(ledger, start, end, category) == []
  {
    var v := YieldRows(ledger, start, end, category);
    assert r in v <==> multiset(v)[r] > 0;
    assert r in ledger <==> multiset(ledger)[r] > 0;
    if end < start {
      assert multiset(v) == multiset{};
    }
  }

  /** "Lbs" sums Weight and "Dollars" sums Net Sales. */
  lemma ColumnSelects(units: Units, r: Record)
    ensures units == Lbs ==> Column(units)(r) == r.weight
    ensures units == Dollars ==> Column(units)(r) == r.netSales
  {
  }

  /** The group totals have distinct keys. */
  lemma GroupTotalsDistinct(rows: seq<Record>, key: Record -> string, w: Record -> nat)
    ensures NoDup(GroupTotals(rows, key, w))
  {
    var gs := GroupTotals(rows, key, w);
    StrLessIsStrictTotalOrder();
    AscendingNoDup(Keys(gs), StrLess);
    forall i, j | 0 <= i < j < |gs| ensures gs[i] != gs[j] {
      assert Keys(gs)[i] != Keys(gs)[j];
    }
  }

  /** A ranked group is one of the filtered rows' groups, with its full sum. */
  lemma RankedGroup(rows: seq<Record>, key: Record -> string, w: Record -> nat, i: int)
    requires 0 <= i < |Ranked(rows, key, w)|
    ensures Ranked(rows, key, w)[i].total == GroupSum(rows, key, Ranked(rows, key, w)[i].key, w)
    ensures exists r :: r in rows && key(r) == Ranked(rows, key, w)[i].key
  {
    var g := Ranked(rows, key, w)[i];
    assert g in multiset(Ranked(rows, key, w));
    assert g in GroupTotals(rows, key, w);
  }

  /** No two bars show the same group. */
  lemma TopEntriesDistinct(rows: seq<Record>, key: Record -> string, w: Record -> nat, n: nat)
    requires n > 0
    ensures forall i, j :: 0 <= i < j < |TopEntries(rows, key, w, n)| ==>
      TopEntries(rows, key, w, n)[i].key != TopEntries(rows, key, w, n)[j].key
  {
    var ranked := Ranked(rows, key, w);
    GroupTotalsDistinct(rows, key, w);
    PermutationNoDup(GroupTotals(rows, key, w), ranked);
    forall i, j | 0 <= i < j < |TopEntries(rows, key, w, n)|
      ensures ranked[i].key != ranked[j].key
    {
      RankedGroup(rows, key, w, i);
      RankedGroup(rows, key, w, j);
    }
  }

  /** There are ten bars, or fewer when the filtered rows have fewer groups. */
  lemma TopEntriesCount(rows: seq<Record>, key: Record -> string, w: Record -> nat, n: nat)
    requires n > 0
    ensures |TopEntries(rows, key, w, n)| == Min(|(set r | r in rows :: key(r))|, TOP_GROUPS)
  {
    var gs := GroupTotals(rows, key, w);
    var ranked := Ranked(rows, key, w);
    assert |ranked| == |multiset(ranked)| == |multiset(gs)| == |gs|;
  }

  /** Each bar is a group of the filtered rows, its value that group's sum
      divided by the number of animals. */
  lemma TopEntriesValues(rows: seq<Record>, key: Record -> string, w: Record -> nat, n: nat, i: int)
    requires n > 0
    requires 0 <= i < |TopEntries(rows, key, w, n)|
    ensures exists r :: r in rows && key(r) == TopEntries(rows, key, w, n)[i].key
    ensures TopEntries(rows, key, w, n)[i].value
         == Quotient(GroupSum(rows, key, TopEntries(rows, key, w, n)[i].key, w), n)
  {
    RankedGroup(rows, key, w, i);
  }

  /** The bars run from the largest yield down. */
  lemma TopEntriesNonIncreasing(rows: seq<Record>, key: Record -> string, w: Record -> nat, n: nat, i: int, j: int)
    requires n > 0
    requires 0 <= i < j < |TopEntries(rows, key, w, n)|
    ensures TopEntries(rows, key, w, n)[i].value >= TopEntries(rows, key, w, n)[j].value
  {
    var ranked := Ranked(rows, key, w);
    assert TotalOf(ranked[i]) >= TotalOf(ranked[j]);
    QuotientMonotone(ranked[j].total, ranked[i].total, n);
  }

  /** A group left off the chart sums to no more than any group shown. */
  lemma TopEntriesDominate(rows: seq<Record>, key: Record -> string, w: Record -> nat, n: nat, k: string, i: int)
    requires n > 0
    requires exists r :: r in rows && key(r) == k
    requires forall j :: 0 <= j < |TopEntries(rows, key, w, n)| ==> TopEntries(rows, key, w, n)[j].key != k
    requires 0 <= i < |TopEntries(rows, key, w, n)|
    ensures GroupSum(rows, key, k, w) <= GroupSum(rows, key, TopEntries(rows, key, w, n)[i].key, w)
    ensures Quotient(GroupSum(rows, key, k, w), n) <= TopEntries(rows, key, w, n)[i].value
  {
    var es := TopEntries(rows, key, w, n);
    var ranked := Ranked(rows, key, w);
    var g := GroupTotal(k, GroupSum(rows, key, k, w));
    assert g in GroupTotals(rows, key, w);
    assert g in multiset(ranked);
    var p :| 0 <= p < |ranked| && ranked[p] == g;
    assert forall j :: 0 <= j < |es| ==> ranked[j] != g;
    assert p >= |es|;
    assert TotalOf(ranked[i]) >= TotalOf(ranked[p]);
    RankedGroup(rows, key, w, i);
    QuotientMonotone(g.total, ranked[i].total, n);
  }

  /** Before the cut to ten, the group sums add up to the category's total:
      the pie of "Total" is the sum of all Tier (or Item) bars. */
  lemma GroupTotalsPartitionTotal(rows: seq<Record>, key: Record -> string, w: Record -> nat)
    ensures Sum(Totals(GroupTotals(rows, key, w))) == Total(rows, w)
  {
    var gs := GroupTotals(rows, key, w);
    var keys := Keys(gs);
    StrLessIsStrictTotalOrder();
    AscendingNoDup(keys, StrLess);
    forall r | r in rows ensures key(r) in keys {
      var g := GroupTotal(key(r), GroupSum(rows, key, key(r), w));
      assert g in gs;
      var i :| 0 <= i < |gs| && gs[i] == g;
      assert keys[i] == key(r);
    }
    assert GroupSums(rows, key, keys, w) == Totals(gs);
    GroupSumsPartitionTotal(rows, key, keys, w);
  }
}
