/** The sales ledger loaded from `encoded_df.csv`: one record per sale. Dates
    are day numbers; Weight and Net Sales are non-negative hundredths (of a
    pound, of a dollar). */
module Ledger {

  import opened Tables

  datatype Record = Record(
    date: int,
    category: string,
    item: string,
    tier: string,
    location: string,
    weight: nat,
    netSales: nat)

  /** A ledger row with the Tier column dropped (`drop(columns='Tier')`). */
  datatype Sale = Sale(
    date: int,
    category: string,
    item: string,
    location: string,
    weight: nat,
    netSales: nat)

  function DropTier(r: Record): (s: Sale)
    ensures s.date == r.date && s.category == r.category && s.item == r.item
    ensures s.location == r.location && s.weight == r.weight && s.netSales == r.netSales
  {
    Sale(r.date, r.category, r.item, r.location, r.weight, r.netSales)
  }

  /** Dropping the Tier column forgets the tier and nothing else: two records
      give the same sale exactly when they differ at most in their Tier. */
  lemma DropTierForgetsOnlyTier(r1: Record, r2: Record)
    ensures DropTier(r1) == DropTier(r2) <==> r1.(tier := r2.tier) == r2
  {
  }

  // Column accessors, passed where pandas takes a column name.
  function RecordDate(r: Record): int { r.date }
  function RecordItem(r: Record): string { r.item }
  function RecordTier(r: Record): string { r.tier }
  function RecordWeight(r: Record): nat { r.weight }
  function RecordNetSales(r: Record): nat { r.netSales }
  function SaleDate(s: Sale): int { s.date }
  function SaleLocation(s: Sale): string { s.location }

  const LEDGER_COLUMNS: seq<string> :=
    ["Date", "Category", "Item", "Tier", "Location", "Weight", "Net Sales"]

  function Hundredths(n: nat): real {
    n as real / 100.0
  }

  function RecordCells(r: Record): seq<Cell> {
    [Day(r.date), Text(r.category), Text(r.item), Text(r.tier), Text(r.location),
     Decimal(Hundredths(r.weight)), Decimal(Hundredths(r.netSales))]
  }

  /** The ledger as a data frame with its seven columns. */
  function LedgerFrame(rs: seq<Record>): (f: Frame)
    ensures f.columns == LEDGER_COLUMNS
    ensures |f.rows| == |rs|
    ensures forall i :: 0 <= i < |rs| ==> f.rows[i] == RecordCells(rs[i])
  {
    Frame(LEDGER_COLUMNS, seq(|rs|, i requires 0 <= i < |rs| => RecordCells(rs[i])))
  }
}
