/**
 * The per-column tally of problematic values that the exploratory analysis
 * reports: nulls, empty strings, 'ERROR' and 'UNKNOWN', and their total.
 */
module Eda {
  import opened Cells
  import opened Rows

  /** `(df[c] == v).sum()`, and with v = Null, `df[c].isnull().sum()`. */
  function CountValue(df: seq<Row>, c: Column, v: Cell): (n: nat)
    ensures n <= |df|
    decreases |df|
  {
    if df == [] then 0
    else CountValue(df[..|df| - 1], c, v) + (if Get(df[|df| - 1], c) == v then 1 else 0)
  }

  /** Rows whose cell in column c is null or one of the three markers. */
  function CountProblematic(df: seq<Row>, c: Column): (n: nat)
    ensures n <= |df|
    decreases |df|
  {
    if df == [] then 0
    else CountProblematic(df[..|df| - 1], c) + (if IsProblematic(Get(df[|df| - 1], c)) then 1 else 0)
  }

  /** `total_problematic` for one column: the sum of the four tallies. */
  function TallySum(df: seq<Row>, c: Column): nat
  {
    CountValue(df, c, Null) + CountValue(df, c, Str("")) + CountValue(df, c, Str("ERROR"))
      + CountValue(df, c, Str("UNKNOWN"))
  }

  /** The four kinds never overlap, so their sum counts every problematic cell once. */
  lemma {:induction false} ProblematicCountsCells(df: seq<Row>, c: Column)
    ensures TallySum(df, c) == CountProblematic(df, c)
    decreases |df|
  {
    if df != [] {
      ProblematicCountsCells(df[..|df| - 1], c);
    }
  }

  datatype ColumnReport = ColumnReport(
    column: Column,
    nullValues: nat,
    emptyValues: nat,
    errorValues: nat,
    unknownValues: nat,
    totalProblematic: nat)

  /** The rows of `missing_df`, one per column in header order. */
  function MissingReport(df: seq<Row>): (report: seq<ColumnReport>)
    ensures |report| == |Columns|
    ensures forall k :: 0 <= k < |report| ==>
      report[k].column == Columns[k]
      && report[k].nullValues == CountValue(df, Columns[k], Null)
      && report[k].emptyValues == CountValue(df, Columns[k], Str(""))
      && report[k].errorValues == CountValue(df, Columns[k], Str("ERROR"))
      && report[k].unknownValues == CountValue(df, Columns[k], Str("UNKNOWN"))
      && report[k].totalProblematic
        == report[k].nullValues + report[k].emptyValues + report[k].errorValues + report[k].unknownValues
      && report[k].totalProblematic == CountProblematic(df, Columns[k]) <= |df|
  {
    assert forall c :: TallySum(df, c) == CountProblematic(df, c) by {
      forall c ensures TallySum(df, c) == CountProblematic(df, c) {
        ProblematicCountsCells(df, c);
      }
    }
    seq(|Columns|, k requires 0 <= k < |Columns| =>
      var c := Columns[k];
      ColumnReport(c, CountValue(df, c, Null), CountValue(df, c, Str("")), CountValue(df, c, Str("ERROR")),
        CountValue(df, c, Str("UNKNOWN")), TallySum(df, c)))
  }
}
