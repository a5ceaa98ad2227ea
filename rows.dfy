/** A row of the payment-systems data set (one parsed CSV record) and the
    quarter/metric columns the dashboard reads from it. */
module Rows {
  import opened Seqs
  import opened Numbers

  /** The five reporting quarters, in the order of `pieChartQuarters`
      (script.js:5), repeated in the table and the trend chart. */
  datatype Quarter = Q3FY24 | Q4FY24 | Q1FY25 | Q2FY25 | Q3FY25

  const Quarters: seq<Quarter> := [Q3FY24, Q4FY24, Q1FY25, Q2FY25, Q3FY25]

  function QuarterName(q: Quarter): string
  {
    match q
    case Q3FY24 => "Q3_FY24"
    case Q4FY24 => "Q4_FY24"
    case Q1FY25 => "Q1_FY25"
    case Q2FY25 => "Q2_FY25"
    case Q3FY25 => "Q3_FY25"
  }

  /** The two measures, chosen with the metric selector. */
  datatype Metric = Volume | Value

  /** The value of the metric `<select>` option. */
  function SelectValue(m: Metric): string
  {
    match m
    case Volume => "volume"
    case Value => "value"
  }

  /** The column-name suffix of a metric. */
  function MetricName(m: Metric): string
  {
    match m
    case Volume => "Volume"
    case Value => "Value"
  }

  function UpperAscii(c: char): char
  {
    if 'a' <= c <= 'z' then (c as int - 32) as char else c
  }

  /** `s.charAt(0).toUpperCase() + s.slice(1)` for ASCII text. */
  function Capitalize(s: string): (r: string)
    ensures |r| == |s| && (s != [] ==> r[0] == UpperAscii(s[0]) && r[1..] == s[1..])
  {
    if s == [] then s else [UpperAscii(s[0])] + s[1..]
  }

  /** Capitalising the selector's value gives the column suffix, so the
      template `${quarter}_${Capitalize(metricType)}` names `Column`. */
  lemma MetricSuffix(m: Metric)
    ensures Capitalize(SelectValue(m)) == MetricName(m)
  {
    var v := SelectValue(m);
    assert Capitalize(v) == [UpperAscii(v[0])] + v[1..];
  }

  /** The CSV column `<quarter>_<Metric>`. */
  function Column(q: Quarter, m: Metric): string
  {
    QuarterName(q) + "_" + MetricName(m)
  }

  /** Different (quarter, metric) pairs name different columns, so every
      amount of a row is read from its own cell. */
  lemma ColumnsDistinct(q1: Quarter, m1: Metric, q2: Quarter, m2: Metric)
    requires q1 != q2 || m1 != m2
    ensures Column(q1, m1) != Column(q2, m2)
  {
    var c1, c2 := Column(q1, m1), Column(q2, m2);
    assert |QuarterName(q1)| == 7 && |QuarterName(q2)| == 7;
    if m1 != m2 {
      assert |c1| != |c2|;
    } else if q1 != q2 {
      assert c1[..7] == QuarterName(q1) && c2[..7] == QuarterName(q2);
      assert QuarterName(q1) != QuarterName(q2) by {
        var n1, n2 := QuarterName(q1), QuarterName(q2);
        assert n1[1] != n2[1] || n1[5..] != n2[5..];
      }
    }
  }

  /** One parsed record: the two classification columns and the raw text
      of the remaining cells, keyed by column name. A cell the record does
      not have is absent from the map (JavaScript's `undefined`). */
  datatype Row = Row(txType: string, subType: string, cells: map<string, string>)

  function Cell(row: Row, column: string): Option<string>
  {
    if column in row.cells then Some(row.cells[column]) else None
  }

  /** `cleanNumber(row[column] || 0)`: the cleaned amount, 0 for a missing
      or empty cell. */
  function Amount(row: Row, q: Quarter, m: Metric): real
  {
    CleanCell(Cell(row, Column(q, m)))
  }

  /** The five quarterly amounts of a row for one metric, in quarter order. */
  function Series(row: Row, m: Metric): (r: seq<real>)
    ensures |r| == |Quarters|
    ensures forall i :: 0 <= i < |r| ==> r[i] == Amount(row, Quarters[i], m)
  {
    seq(|Quarters|, i requires 0 <= i < |Quarters| => Amount(row, Quarters[i], m))
  }

  /** Each entry of a series is the cleaned cell the chart's template
      names: the quarter, an underscore and the capitalised selector value. */
  lemma SeriesReadsTemplate(row: Row, m: Metric)
    ensures |Series(row, m)| == |Quarters|
    ensures forall i :: 0 <= i < |Quarters| ==>
              Series(row, m)[i] == CleanCell(Cell(row, QuarterName(Quarters[i]) + "_" + Capitalize(SelectValue(m))))
  {
    MetricSuffix(m);
  }

  /** `cleanNumber(x || 0)` and `cleanNumber(x)` agree: the fallback only
      replaces an absent or empty cell, and both of those read as 0. */
  lemma FallbackIsNeutral(row: Row, q: Quarter, m: Metric)
    ensures Cell(row, Column(q, m)) == Some("") ==> Amount(row, q, m) == 0.0
    ensures Cell(row, Column(q, m)) == None ==> Amount(row, q, m) == 0.0
  {
    if Cell(row, Column(q, m)) == Some("") {
      assert Strip("") == "";
      FailedParsesAreZero("");
    }
  }
}
