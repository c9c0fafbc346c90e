/**
 * The row indexing of `load_csv` (utils.py) and the row shape the SNOMED
 * loader shares with it. A row is what `csv.DictReader` yields: one entry per
 * header column, whose value is None when the line was shorter than the header.
 */
module CsvLoader {
  import opened Text

  type Row = map<string, Option<string>>

  /** `row.get(col)`: None both for a column the file lacks and for a short line. */
  function Get(row: Row, col: string): Option<string> {
    if col in row then row[col] else None
  }

  /** The key of a row for `load_csv`: present and non-empty, or None when the row is skipped. */
  function RowKey(row: Row, keyColumn: string): (k: Option<string>)
    ensures k.Some? <==> Truthy(Get(row, keyColumn))
    ensures k.Some? ==> k.value == Get(row, keyColumn).value
  {
    match Get(row, keyColumn)
    case Some(v) => if v == "" then None else Some(v)
    case None => None
  }

  /** The dictionary the row loop builds from `rows`, read in file order. */
  function IndexRows(rows: seq<Row>, keyColumn: string): map<string, Row>
    decreases |rows|
  {
    if rows == [] then map[]
    else
      var m := IndexRows(rows[..|rows| - 1], keyColumn);
      var row := rows[|rows| - 1];
      match RowKey(row, keyColumn)
      case Some(k) => m[k := row]
      case None => m
  }

  /** The whole of `load_csv`: an absent file or a key column missing from the header yields `{}`. */
  function LoadCsvResult(fileExists: bool, header: seq<string>, rows: seq<Row>, keyColumn: string): map<string, Row> {
    if !fileExists || keyColumn !in header then map[] else IndexRows(rows, keyColumn)
  }

  /** `load_csv` with the file already read into its header and rows. */
  method LoadCsv(fileExists: bool, header: seq<string>, rows: seq<Row>, keyColumn: string)
    returns (dataMap: map<string, Row>)
    ensures dataMap == LoadCsvResult(fileExists, header, rows, keyColumn)
  {
    dataMap := map[];
    if !fileExists {
      return;
    }
    if keyColumn !in header {
      return;
    }
    var i := 0;
    while i < |rows|
      invariant 0 <= i <= |rows|
      invariant dataMap == IndexRows(rows[..i], keyColumn)
    {
      assert rows[..i + 1][..i] == rows[..i];
      var keyValue := Get(rows[i], keyColumn);
      if keyValue.None? || keyValue.value == "" {
        i := i + 1;
        continue;
      }
      dataMap := dataMap[keyValue.value := rows[i]];
      i := i + 1;
    }
    assert rows[..|rows|] == rows;
  }

  /**
   * The keys are exactly the non-empty key values of the rows, and each maps
   * to the LAST row carrying that key: a later duplicate overwrites.
   */
  lemma {:induction false} IndexRowsLastWins(rows: seq<Row>, keyColumn: string, k: string)
    ensures k in IndexRows(rows, keyColumn) <==> exists i :: 0 <= i < |rows| && RowKey(rows[i], keyColumn) == Some(k)
    ensures k in IndexRows(rows, keyColumn) ==>
      exists i :: 0 <= i < |rows| && RowKey(rows[i], keyColumn) == Some(k) && IndexRows(rows, keyColumn)[k] == rows[i]
        && forall j :: i < j < |rows| ==> RowKey(rows[j], keyColumn) != Some(k)
    decreases |rows|
  {
    if rows != [] {
      var init := rows[..|rows| - 1];
      var last := |rows| - 1;
      IndexRowsLastWins(init, keyColumn, k);
      assert forall i :: 0 <= i < |init| ==> init[i] == rows[i];
      if RowKey(rows[last], keyColumn) != Some(k) && k in IndexRows(init, keyColumn) {
        var i :| 0 <= i < |init| && RowKey(init[i], keyColumn) == Some(k) && IndexRows(init, keyColumn)[k] == init[i]
          && forall j :: i < j < |init| ==> RowKey(init[j], keyColumn) != Some(k);
        assert forall j :: i < j < |rows| ==> RowKey(rows[j], keyColumn) != Some(k);
      }
    }
  }

  /** Rows whose key is empty or missing contribute nothing. */
  lemma {:induction false} SkippedRowsIgnored(rows: seq<Row>, row: Row, keyColumn: string)
    requires !Truthy(Get(row, keyColumn))
    ensures IndexRows(rows + [row], keyColumn) == IndexRows(rows, keyColumn)
  {
    assert (rows + [row])[..|rows|] == rows;
  }
}
