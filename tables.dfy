/** `generate_table`: the HTML table the dashboard shows for a data frame, as
    plain rows of cells (the `html.Tr` / `html.Th` / `html.Td` objects are not
    modelled). */
module Tables {

  import opened Seqs

  /** One displayed value: a string, a whole number, a decimal or a day number. */
  datatype Cell = Text(text: string) | Whole(n: int) | Decimal(q: real) | Day(day: int)

  /** A data frame: column names and, per row, one cell per column in column order. */
  datatype Frame = Frame(columns: seq<string>, rows: seq<seq<Cell>>)

  /** The `html.Th` row: one text cell per column name. */
  function HeaderRow(columns: seq<string>): (h: seq<Cell>)
    ensures |h| == |columns|
    ensures forall j :: 0 <= j < |columns| ==> h[j] == Text(columns[j])
  {
    seq(|columns|, j requires 0 <= j < |columns| => Text(columns[j]))
  }

  /** The header row, then the first `min(len(frame), maxRows)` rows in their
      current order; `range` of a non-positive bound is empty. */
  function GenerateTable(f: Frame, maxRows: int): (t: seq<seq<Cell>>)
    ensures |t| == 1 + (if maxRows <= 0 then 0 else Min(|f.rows|, maxRows))
    ensures t[0] == HeaderRow(f.columns)
    ensures forall i :: 0 < i < |t| ==> t[i] == f.rows[i - 1]
  {
    var n := Min(|f.rows|, maxRows);
    [HeaderRow(f.columns)] + f.rows[..if n < 0 then 0 else n]
  }

  /** Asking for more rows only appends rows: a shorter table is a prefix of a longer one. */
  lemma GenerateTableGrows(f: Frame, m: int, n: int)
    requires m <= n
    ensures GenerateTable(f, m) <= GenerateTable(f, n)
  {
    var a, b := GenerateTable(f, m), GenerateTable(f, n);
    assert |a| <= |b|;
    assert forall i :: 0 <= i < |a| ==> a[i] == b[i];
  }

  /** With room for every row the table shows the whole frame. */
  lemma GenerateTableShowsAll(f: Frame, maxRows: int)
    requires maxRows >= |f.rows|
    ensures GenerateTable(f, maxRows)[1..] == f.rows
  {
  }
}
