/** `update_sales_table`: the "Recent Sales" table. The ledger rows whose
    Category is among the chosen ones, latest Date first, cut to the requested
    number of rows. */
module RecentSales {

  import opened Seqs
  import opened Order
  import opened Tables
  import opened Ledger

  /** `df[df['Category'].isin(categories)].sort_values('Date', ascending=False)`.
      pandas' default sort is not stable, so the contract leaves the order
      among equal dates open; this body happens to keep ledger order. */
  function RecentRows(ledger: seq<Record>, categories: set<string>): (v: seq<Record>)
    ensures forall x :: multiset(v)[x] == if x.category in categories then multiset(ledger)[x] else 0
    ensures forall i, j :: 0 <= i < j < |v| ==> v[i].date >= v[j].date
  {
    var selected := Filter(ledger, (r: Record) => r.category in categories);
    var v := SortDesc(selected, RecordDate);
    assert forall i, j :: 0 <= i < j < |v| ==> RecordDate(v[i]) >= RecordDate(v[j]);
    v
  }

  /** The rendered table: header, then at most `numRows` of the recent rows. */
  function UpdateSalesTable(ledger: seq<Record>, categories: set<string>, numRows: int): (t: seq<seq<Cell>>)
    ensures |t| == 1 + (if numRows <= 0 then 0 else Min(|RecentRows(ledger, categories)|, numRows))
    ensures t[0] == HeaderRow(LEDGER_COLUMNS)
    ensures forall i :: 0 < i < |t| ==> t[i] == RecordCells(RecentRows(ledger, categories)[i - 1])
  {
    var v := RecentRows(ledger, categories);
    var f := LedgerFrame(v);
    assert |f.rows| == |v| && f.columns == LEDGER_COLUMNS;
    GenerateTable(f, numRows)
  }

  /** Every displayed row is in a chosen category, and dates do not increase
      down the table. */
  lemma RecentRowsShown(ledger: seq<Record>, categories: set<string>, numRows: int, i: int, j: int)
    requires 0 < i < j < |UpdateSalesTable(ledger, categories, numRows)|
    ensures RecentRows(ledger, categories)[i - 1].category in categories
    ensures RecentRows(ledger, categories)[i - 1].date >= RecentRows(ledger, categories)[j - 1].date
  {
    var v := RecentRows(ledger, categories);
    assert multiset(v)[v[i - 1]] > 0;
  }

  /** The first row shown is a latest sale among the chosen categories. */
  lemma RecentRowsStartWithLatest(ledger: seq<Record>, categories: set<string>, r: Record)
    requires r in ledger && r.category in categories
    ensures RecentRows(ledger, categories) != []
    ensures r.date <= RecentRows(ledger, categories)[0].date
  {
    var v := RecentRows(ledger, categories);
    assert multiset(v)[r] == multiset(ledger)[r] > 0;
    HeadIsLatest(v, r);
  }

  /** In a sequence of non-increasing dates, the head is at least as late as any element. */
  lemma HeadIsLatest(v: seq<Record>, r: Record)
    requires r in v
    requires forall i, j :: 0 <= i < j < |v| ==> v[i].date >= v[j].date
    ensures r.date <= v[0].date
  {
    var k :| 0 <= k < |v| && v[k] == r;
    assert k == 0 || v[0].date >= v[k].date;
  }

  /** No chosen category: only the header row. */
  lemma UpdateSalesTableNoCategories(ledger: seq<Record>, numRows: int)
    ensures UpdateSalesTable(ledger, {}, numRows) == [HeaderRow(LEDGER_COLUMNS)]
  {
    var v := RecentRows(ledger, {});
    assert multiset(v) == multiset{};
  }

  /** Choosing every category present re-orders the whole ledger and drops nothing. */
  lemma RecentRowsAllCategories(ledger: seq<Record>, categories: set<string>)
    requires forall r :: r in ledger ==> r.category in categories
    ensures multiset(RecentRows(ledger, categories)) == multiset(ledger)
  {
    var v := RecentRows(ledger, categories);
    forall x ensures multiset(v)[x] == multiset(ledger)[x] {
      if x !in ledger {
        assert multiset(ledger)[x] == 0;
      }
    }
  }
}
