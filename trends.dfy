/** `sales_trends`: the scatter chart of the item history. One series per
    market location, in order of first appearance; each point is the number of
    the item's rows at that location on that day; the y axis runs from 0 to
    one more than the largest number of rows on any single day. */
module Trends {

  import opened Seqs
  import opened Order
  import opened Groups
  import opened Ledger
  import opened Counts

  /** One marker: a day and how many of the item sold on it. */
  datatype Point = Point(date: int, count: nat)

  /** One scatter series, named by its location. */
  datatype Trace = Trace(name: string, points: seq<Point>)

  /** The figure: its title item, the series and the top of the y axis. */
  datatype Figure = Figure(item: string, traces: seq<Trace>, yUpper: int)

  /** `dff['Location'].unique()`: the series names. */
  function TraceNames(rows: seq<Sale>): (locs: seq<string>)
    ensures NoDup(locs)
    ensures forall l :: l in locs <==> exists x :: x in rows && x.location == l
    ensures forall i :: 0 <= i < |locs| ==> locs[i] in Project(rows, SaleLocation)
    ensures forall i, j :: 0 <= i < j < |locs| ==>
      IndexOf(Project(rows, SaleLocation), locs[i]) < IndexOf(Project(rows, SaleLocation), locs[j])
  {
    var locs := Unique(Project(rows, SaleLocation));
    assert forall l :: l in locs <==> exists x :: x in rows && x.location == l by {
      forall l ensures l in locs <==> exists x :: x in rows && x.location == l {
        ProjectMembership(rows, SaleLocation, l);
      }
    }
    locs
  }

  /** `dff[dff['Location'] == loc].groupby('Date')['Net Sales'].count()`:
      one point per sale day of `loc`, in day order. */
  function DailySeries(rows: seq<Sale>, loc: string): (ps: seq<Point>)
    ensures |ps| == |SaleDays(rows, loc)|
    ensures forall i :: 0 <= i < |ps| ==> ps[i].date == SaleDays(rows, loc)[i]
    ensures forall i :: 0 <= i < |ps| ==> ps[i].count == DailyCount(rows, loc, ps[i].date)
  {
    var ds := SaleDays(rows, loc);
    seq(|ds|, i requires 0 <= i < |ds| => Point(ds[i], DailyCount(rows, loc, ds[i])))
  }

  /** Every plotted point is a day on which `loc` sold at least once; the
      days run strictly upwards. */
  lemma DailySeriesPoints(rows: seq<Sale>, loc: string, k: int)
    requires 0 <= k < |DailySeries(rows, loc)|
    ensures DailySeries(rows, loc)[k].count >= 1
    ensures exists x :: x in rows && x.location == loc && x.date == DailySeries(rows, loc)[k].date
    ensures k + 1 < |DailySeries(rows, loc)| ==> DailySeries(rows, loc)[k].date < DailySeries(rows, loc)[k + 1].date
  {
    var ds := SaleDays(rows, loc);
    assert ds[k] in ds;
    DailyCountOnSaleDays(rows, loc, ds[k]);
  }

  /** The days on which the item sold anywhere, ascending. */
  function AllSaleDays(rows: seq<Sale>): (ds: seq<int>)
    ensures Ascending(ds, IntLess)
    ensures forall d :: d in ds <==> exists x :: x in rows && x.date == d
  {
    IntLessIsStrictTotalOrder();
    var ds := SortedSet(Project(rows, SaleDate), IntLess);
    assert forall d :: d in ds <==> exists x :: x in rows && x.date == d by {
      forall d ensures d in ds <==> exists x :: x in rows && x.date == d {
        ProjectMembership(rows, SaleDate, d);
      }
    }
    ds
  }

  /** `glo_cnts`: `groupby('Date')['Net Sales'].count()` over the whole history. */
  function GlobalCounts(rows: seq<Sale>): (cs: seq<nat>)
    ensures |cs| == |AllSaleDays(rows)|
    ensures forall i :: 0 <= i < |cs| ==> cs[i] == DateCount(rows, AllSaleDays(rows)[i])
  {
    GroupSums(rows, SaleDate, AllSaleDays(rows), Once)
  }

  /** A non-empty history has at least one sale day. */
  lemma AllSaleDaysNonEmpty(rows: seq<Sale>)
    requires rows != []
    ensures AllSaleDays(rows) != []
  {
    assert rows[0].date in AllSaleDays(rows);
  }

  /** Builds the chart. `dff['Item'].values[0]` fails on an empty history, so
      the history must not be empty. */
  method SalesTrends(rows: seq<Sale>) returns (fig: Figure)
    requires rows != []
    ensures fig.item == rows[0].item
    ensures |fig.traces| == |TraceNames(rows)|
    ensures forall i :: 0 <= i < |fig.traces| ==>
      fig.traces[i] == Trace(TraceNames(rows)[i], DailySeries(rows, TraceNames(rows)[i]))
    ensures AllSaleDays(rows) != [] && fig.yUpper == Max(GlobalCounts(rows)) + 1
  {
    var locs := TraceNames(rows);
    var traces: seq<Trace> := [];
    var i := 0;
    while i < |locs|
      invariant 0 <= i <= |locs|
      invariant |traces| == i
      invariant forall k :: 0 <= k < i ==> traces[k] == Trace(locs[k], DailySeries(rows, locs[k]))
    {
      traces := traces + [Trace(locs[i], DailySeries(rows, locs[i]))];
      i := i + 1;
    }
    AllSaleDaysNonEmpty(rows);
    fig := Figure(rows[0].item, traces, Max(GlobalCounts(rows)) + 1);
  }

  /** Every point of every series lies strictly below the top of the y axis. */
  lemma SeriesBelowAxisTop(rows: seq<Sale>, loc: string, k: int)
    requires rows != []
    requires 0 <= k < |DailySeries(rows, loc)|
    ensures AllSaleDays(rows) != []
    ensures DailySeries(rows, loc)[k].count < Max(GlobalCounts(rows)) + 1
  {
    PointBelowAxisTop(rows, loc, DailySeries(rows, loc)[k].date);
  }

  /** Every daily count of a location lies strictly below the top of the y axis. */
  lemma PointBelowAxisTop(rows: seq<Sale>, loc: string, d: int)
    requires rows != []
    ensures AllSaleDays(rows) != []
    ensures DailyCount(rows, loc, d) < Max(GlobalCounts(rows)) + 1
  {
    AllSaleDaysNonEmpty(rows);
    var ds := AllSaleDays(rows);
    var cs := GlobalCounts(rows);
    if d in ds {
      var i :| 0 <= i < |ds| && ds[i] == d;
      assert cs[i] in cs;
    } else {
      GroupSumOfAbsentGroup(rows, SaleDate, d, Once);
    }
  }

  /** The per-location counts on day `d`, one per series. */
  function LocationCounts(rows: seq<Sale>, d: int): (cs: seq<nat>)
    ensures |cs| == |TraceNames(rows)|
    ensures forall i :: 0 <= i < |cs| ==> cs[i] == DailyCount(rows, TraceNames(rows)[i], d)
  {
    var locs := TraceNames(rows);
    seq(|locs|, i requires 0 <= i < |locs| => DailyCount(rows, locs[i], d))
  }

  /** On every day, the series' counts add up to that day's global count: the
      series split the day's sales between the locations. */
  lemma LocationCountsPartitionDay(rows: seq<Sale>, d: int)
    ensures Sum(LocationCounts(rows, d)) == DateCount(rows, d)
  {
    var locs := TraceNames(rows);
    var onDay := Where(rows, SaleDate, d);
    var split := GroupSums(onDay, SaleLocation, locs, Once);
    forall i | 0 <= i < |locs| ensures split[i] == DailyCount(rows, locs[i], d) {
      GroupSumCommutes(rows, SaleLocation, locs[i], SaleDate, d, Once);
    }
    assert split == LocationCounts(rows, d);
    WhereMembers(rows, SaleDate, d);
    assert forall x :: x in onDay ==> SaleLocation(x) in locs;
    GroupSumsPartitionTotal(onDay, SaleLocation, locs, Once);
    GroupSumIsTotalOfGroup(rows, SaleDate, d, Once);
  }
}
