/** Counting the item history per (Location, Date) and per Date: the
    `groupby(...).count()` that both the performance table and the trend
    chart start from. */
module Counts {

  import opened Seqs
  import opened Order
  import opened Groups
  import opened Ledger

  /** The history rows sold at one location. */
  function At(rows: seq<Sale>, loc: string): seq<Sale> {
    Where(rows, SaleLocation, loc)
  }

  /** `groupby(['Location', 'Date']).agg({'Weight': 'count'})` at (`loc`, `d`):
      how many of the item sold at `loc` on day `d`; no location sells more on
      a day than all locations together. */
  function DailyCount(rows: seq<Sale>, loc: string, d: int): (c: nat)
    ensures c <= DateCount(rows, d)
  {
    GroupSumOfSelection(rows, SaleLocation, loc, SaleDate, d, Once);
    GroupSum(At(rows, loc), SaleDate, d, Once)
  }

  /** The days with at least one sale at `loc`, ascending: the groups of the
      daily counts that belong to `loc`. */
  function SaleDays(rows: seq<Sale>, loc: string): (ds: seq<int>)
    ensures Ascending(ds, IntLess)
    ensures forall d :: d in ds <==> exists x :: x in rows && x.location == loc && x.date == d
  {
    IntLessIsStrictTotalOrder();
    var atLoc := At(rows, loc);
    var ds := SortedSet(Project(atLoc, SaleDate), IntLess);
    assert forall d :: d in ds <==> exists x :: x in rows && x.location == loc && x.date == d by {
      WhereMembers(rows, SaleLocation, loc);
      forall d ensures d in ds <==> exists x :: x in rows && x.location == loc && x.date == d {
        ProjectMembership(atLoc, SaleDate, d);
      }
    }
    ds
  }

  /** A location has a sale day exactly when it occurs in the history; the
      aggregations below ask for a location with a sale day. */
  lemma SaleDaysNonEmpty(rows: seq<Sale>, loc: string)
    ensures SaleDays(rows, loc) != [] <==> exists x :: x in rows && x.location == loc
  {
    if exists x :: x in rows && x.location == loc {
      var x :| x in rows && x.location == loc;
      assert x.date in SaleDays(rows, loc);
    }
    if SaleDays(rows, loc) != [] {
      assert SaleDays(rows, loc)[0] in SaleDays(rows, loc);
    }
  }

  /** A day without a sale at `loc` has daily count zero. */
  lemma DailyCountOutsideSaleDays(rows: seq<Sale>, loc: string, d: int)
    requires d !in SaleDays(rows, loc)
    ensures DailyCount(rows, loc, d) == 0
  {
    WhereMembers(rows, SaleLocation, loc);
    GroupSumOfAbsentGroup(At(rows, loc), SaleDate, d, Once);
  }

  /** A day with a sale at `loc` has daily count at least one. */
  lemma DailyCountOnSaleDays(rows: seq<Sale>, loc: string, d: int)
    requires d in SaleDays(rows, loc)
    ensures DailyCount(rows, loc, d) >= 1
  {
    var x :| x in rows && x.location == loc && x.date == d;
    WhereMembers(rows, SaleLocation, loc);
    GroupSumIncludes(At(rows, loc), SaleDate, x, Once);
  }

  /** `groupby('Date')['Net Sales'].count()` at day `d`: how many of the item
      sold on that day, all locations together; never more than the history's rows. */
  function DateCount(rows: seq<Sale>, d: int): (c: nat)
    ensures c <= |rows|
  {
    TotalOnce(rows);
    GroupSum(rows, SaleDate, d, Once)
  }
}
