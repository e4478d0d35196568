/** `update_agg_Table`: per market location, how often the chosen item sold.
    Rows of the item history are counted per (Location, Date); those daily
    counts are aggregated per Location (max, count, sum, mean); the latest
    date on which a location's daily count reached its maximum is recovered by
    joining back on (Location, count = max) and taking the largest Date. */
module Performance {

  import opened Seqs
  import opened Order
  import opened Groups
  import opened Tables
  import opened Ledger
  import opened Counts

  /** One row of the performance table. */
  datatype LocationStats = LocationStats(
    location: string,
    days: nat,        // Number of days with at least one sale
    totalSold: nat,   // Total Sold
    average: real,    // Average sold per market (not rounded)
    maxSold: nat,     // Max sold at one market
    maxDate: int)     // Date: the latest day the maximum was reached

  /** The daily counts of `loc`, one per sale day, in day order. */
  function DailyCounts(rows: seq<Sale>, loc: string): (cs: seq<nat>)
    ensures |cs| == |SaleDays(rows, loc)|
    ensures forall i :: 0 <= i < |cs| ==> cs[i] == DailyCount(rows, loc, SaleDays(rows, loc)[i])
  {
    GroupSums(At(rows, loc), SaleDate, SaleDays(rows, loc), Once)
  }

  /** The largest daily count at a location present in `rows`. */
  function PeakCount(rows: seq<Sale>, loc: string): nat
    requires SaleDays(rows, loc) != []
  {
    Max(DailyCounts(rows, loc))
  }

  /** The days among `ds` on which `loc` sold exactly `c`, in order. */
  function DaysWithCount(rows: seq<Sale>, loc: string, ds: seq<int>, c: nat): seq<int>
    decreases |ds|
  {
    if ds == [] then []
    else (if DailyCount(rows, loc, ds[0]) == c then [ds[0]] else []) + DaysWithCount(rows, loc, ds[1..], c)
  }

  lemma {:induction false} DaysWithCountMembers(rows: seq<Sale>, loc: string, ds: seq<int>, c: nat)
    ensures forall d :: d in DaysWithCount(rows, loc, ds, c) <==> d in ds && DailyCount(rows, loc, d) == c
    decreases |ds|
  {
    if ds != [] {
      DaysWithCountMembers(rows, loc, ds[1..], c);
      assert ds == [ds[0]] + ds[1..];
    }
  }

  /** The merge of the daily counts with the aggregate on (Location, count =
      max): the days on which `loc` sold its peak count. */
  function PeakDays(rows: seq<Sale>, loc: string): (ds: seq<int>)
    requires SaleDays(rows, loc) != []
    ensures ds != []
  {
    var dates := SaleDays(rows, loc);
    var top := PeakCount(rows, loc);
    var ds := DaysWithCount(rows, loc, dates, top);
    assert ds != [] by {
      DaysWithCountMembers(rows, loc, dates, top);
      var counts := DailyCounts(rows, loc);
      var i :| 0 <= i < |counts| && counts[i] == top;
      assert dates[i] in ds;
    }
    ds
  }

  /** The peak days are exactly the sale days whose count is the maximum. */
  lemma PeakDaysMembers(rows: seq<Sale>, loc: string)
    requires SaleDays(rows, loc) != []
    ensures forall d :: d in PeakDays(rows, loc) <==> d in SaleDays(rows, loc) && DailyCount(rows, loc, d) == PeakCount(rows, loc)
  {
    DaysWithCountMembers(rows, loc, SaleDays(rows, loc), PeakCount(rows, loc));
  }

  /** The aggregation for one location present in `rows`; `agg({'Date': 'max'})`
      picks the latest peak day. */
  function Summarise(rows: seq<Sale>, loc: string): (st: LocationStats)
    requires SaleDays(rows, loc) != []
    ensures st.location == loc
    ensures st.days >= 1
  {
    var days := |SaleDays(rows, loc)|;
    var total := Sum(DailyCounts(rows, loc));
    LocationStats(loc, days, total, Quotient(total, days), PeakCount(rows, loc), Max(PeakDays(rows, loc)))
  }

  /** "Number of days with at least one sale" is the number of distinct dates
      among the location's rows. */
  lemma SummariseDays(rows: seq<Sale>, loc: string)
    requires SaleDays(rows, loc) != []
    ensures Summarise(rows, loc).location == loc
    ensures Summarise(rows, loc).days == |(set x | x in rows && x.location == loc :: x.date)|
  {
    var dates := SaleDays(rows, loc);
    IntLessIsStrictTotalOrder();
    AscendingNoDup(dates, IntLess);
    NoDupCardinality(dates);
    assert (set d | d in dates) == (set x | x in rows && x.location == loc :: x.date);
  }

  /** "Total Sold" is the number of history rows at the location: the daily
      counts add up to it. */
  lemma SummariseTotal(rows: seq<Sale>, loc: string)
    requires SaleDays(rows, loc) != []
    ensures Summarise(rows, loc).totalSold == |At(rows, loc)|
  {
    var dates := SaleDays(rows, loc);
    IntLessIsStrictTotalOrder();
    AscendingNoDup(dates, IntLess);
    WhereMembers(rows, SaleLocation, loc);
    assert forall x :: x in At(rows, loc) ==> SaleDate(x) in dates;
    GroupSumsPartitionTotal(At(rows, loc), SaleDate, dates, Once);
    TotalOnce(At(rows, loc));
  }

  /** "Max sold at one market" bounds every daily count at the location and is one of them. */
  lemma SummariseMax(rows: seq<Sale>, loc: string)
    requires SaleDays(rows, loc) != []
    ensures Summarise(rows, loc).maxSold >= 1
    ensures forall d :: DailyCount(rows, loc, d) <= Summarise(rows, loc).maxSold
    ensures exists d :: DailyCount(rows, loc, d) == Summarise(rows, loc).maxSold
  {
    var top := PeakCount(rows, loc);
    assert Summarise(rows, loc).maxSold == top;
    var dates := SaleDays(rows, loc);
    var counts := DailyCounts(rows, loc);
    DailyCountOnSaleDays(rows, loc, dates[0]);
    assert counts[0] in counts;
    forall d ensures DailyCount(rows, loc, d) <= top {
      if d in dates {
        var i :| 0 <= i < |dates| && dates[i] == d;
        assert counts[i] in counts;
      } else {
        DailyCountOutsideSaleDays(rows, loc, d);
      }
    }
    var i :| 0 <= i < |counts| && counts[i] == top;
    assert DailyCount(rows, loc, dates[i]) == top;
  }

  /** The reported Date is the latest day whose count equals the maximum: of
      two peak days the later one wins. */
  lemma SummariseMaxDate(rows: seq<Sale>, loc: string)
    requires SaleDays(rows, loc) != []
    ensures DailyCount(rows, loc, Summarise(rows, loc).maxDate) == Summarise(rows, loc).maxSold
    ensures forall d :: DailyCount(rows, loc, d) == Summarise(rows, loc).maxSold ==> d <= Summarise(rows, loc).maxDate
  {
    var p := Summarise(rows, loc);
    var peakDays := PeakDays(rows, loc);
    assert p.maxSold == PeakCount(rows, loc) && p.maxDate == Max(peakDays);
    PeakDaysMembers(rows, loc);
    SummariseMax(rows, loc);
    forall d | DailyCount(rows, loc, d) == p.maxSold ensures d <= p.maxDate {
      if d !in SaleDays(rows, loc) {
        DailyCountOutsideSaleDays(rows, loc, d);
      }
      assert d in peakDays;
    }
  }

  /** Before rounding, "Average sold per market" is the mean of the daily
      counts: "Total Sold" over a positive number of days (which, by
      `QuotientTimesDivisor`, makes average times days the total). */
  lemma SummariseAverage(rows: seq<Sale>, loc: string)
    requires SaleDays(rows, loc) != []
    ensures Summarise(rows, loc).days > 0
    ensures Summarise(rows, loc).average == Quotient(Summarise(rows, loc).totalSold, Summarise(rows, loc).days)
  {
  }

  /** The distinct locations of the history, sorted: the groups of
      `groupby('Location')`. */
  function Locations(rows: seq<Sale>): (locs: seq<string>)
    ensures Ascending(locs, StrLess)
    ensures forall l :: l in locs <==> exists x :: x in rows && x.location == l
    ensures |locs| == |(set x | x in rows :: x.location)|
  {
    StrLessIsStrictTotalOrder();
    var locs := SortedSet(Project(rows, SaleLocation), StrLess);
    assert forall l :: l in locs <==> exists x :: x in rows && x.location == l by {
      forall l ensures l in locs <==> exists x :: x in rows && x.location == l {
        ProjectMembership(rows, SaleLocation, l);
      }
    }
    assert |locs| == |(set x | x in rows :: x.location)| by {
      AscendingNoDup(locs, StrLess);
      NoDupCardinality(locs);
      assert (set l | l in locs) == (set x | x in rows :: x.location);
    }
    locs
  }

  /** One aggregated row per distinct location, sorted by Location. */
  function PerformanceRows(rows: seq<Sale>): (ps: seq<LocationStats>)
    ensures |ps| == |(set x | x in rows :: x.location)|
  {
    var locs := Locations(rows);
    assert forall i :: 0 <= i < |locs| ==> SaleDays(rows, locs[i]) != [] by {
      forall i | 0 <= i < |locs| ensures SaleDays(rows, locs[i]) != [] {
        assert locs[i] in locs;
        SaleDaysNonEmpty(rows, locs[i]);
      }
    }
    Map(locs, (l: string) requires SaleDays(rows, l) != [] => Summarise(rows, l))
  }

  /** Row `i` of the table is the aggregation of the `i`-th location. */
  lemma PerformanceRowsByLocation(rows: seq<Sale>)
    ensures |PerformanceRows(rows)| == |Locations(rows)|
    ensures forall i :: 0 <= i < |Locations(rows)| ==>
      && SaleDays(rows, Locations(rows)[i]) != []
      && PerformanceRows(rows)[i].location == Locations(rows)[i]
      && PerformanceRows(rows)[i] == Summarise(rows, Locations(rows)[i])
  {
    var locs := Locations(rows);
    forall k | 0 <= k < |locs| ensures SaleDays(rows, locs[k]) != [] {
      assert locs[k] in locs;
      SaleDaysNonEmpty(rows, locs[k]);
    }
    var ps := Map(locs, (l: string) requires SaleDays(rows, l) != [] => Summarise(rows, l));
    assert PerformanceRows(rows) == ps;
  }

  /** The rows are in strictly ascending Location order. */
  lemma PerformanceRowsOrdered(rows: seq<Sale>, i: int, j: int)
    requires 0 <= i < j < |PerformanceRows(rows)|
    ensures StrLess(PerformanceRows(rows)[i].location, PerformanceRows(rows)[j].location)
  {
    PerformanceRowsByLocation(rows);
  }

  /** Every location of the history has its row. */
  lemma PerformanceRowsCover(rows: seq<Sale>, x: Sale)
    requires x in rows
    ensures exists i :: 0 <= i < |PerformanceRows(rows)| && PerformanceRows(rows)[i].location == x.location
  {
    PerformanceRowsByLocation(rows);
    var locs := Locations(rows);
    assert x.location in locs;
    var i :| 0 <= i < |locs| && locs[i] == x.location;
    assert PerformanceRows(rows)[i].location == x.location;
  }

  /** Each row of the table is the aggregation of its own location. */
  lemma PerformanceRowIsSummary(rows: seq<Sale>, i: int)
    requires 0 <= i < |PerformanceRows(rows)|
    ensures exists x :: x in rows && x.location == PerformanceRows(rows)[i].location
    ensures SaleDays(rows, PerformanceRows(rows)[i].location) != []
    ensures PerformanceRows(rows)[i] == Summarise(rows, PerformanceRows(rows)[i].location)
  {
    PerformanceRowsByLocation(rows);
    assert Locations(rows)[i] in Locations(rows);
  }

  const PERFORMANCE_COLUMNS: seq<string> :=
    ["Location", "Number of days with at least one sale", "Total Sold",
     "Average sold per market", "Max sold at one market", "Date"]

  function StatsCells(p: LocationStats): seq<Cell> {
    [Text(p.location), Whole(p.days), Whole(p.totalSold), Decimal(p.average), Whole(p.maxSold), Day(p.maxDate)]
  }

  function PerformanceFrame(ps: seq<LocationStats>): (f: Frame)
    ensures f.columns == PERFORMANCE_COLUMNS
    ensures |f.rows| == |ps|
    ensures forall i :: 0 <= i < |ps| ==> f.rows[i] == StatsCells(ps[i])
  {
    Frame(PERFORMANCE_COLUMNS, seq(|ps|, i requires 0 <= i < |ps| => StatsCells(ps[i])))
  }

  /** The rendered table, through `generate_table` with its default of ten rows:
      the first ten locations in Location order. */
  function UpdateAggTable(rows: seq<Sale>): (t: seq<seq<Cell>>)
    ensures |t| == 1 + Min(|(set x | x in rows :: x.location)|, 10)
    ensures t[0] == HeaderRow(PERFORMANCE_COLUMNS)
    ensures forall i :: 0 < i < |t| ==> t[i] == StatsCells(PerformanceRows(rows)[i - 1])
  {
    var ps := PerformanceRows(rows);
    var f := PerformanceFrame(ps);
    GenerateTable(f, 10)
  }

  /** An empty history gives a table with no location rows. */
  lemma UpdateAggTableEmpty()
    ensures UpdateAggTable([]) == [HeaderRow(PERFORMANCE_COLUMNS)]
  {
    assert (set x: Sale | x in [] :: x.location) == {};
  }
}
