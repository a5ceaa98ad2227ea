/** The per-quarter pie charts of `updatePieCharts` (script.js:443-489).
    With every type selected the charts are emptied; otherwise each
    quarter's chart shows one slice per row of the selected type, taken from
    all rows (not from the filtered ones), largest first. */
module Pie {
  import opened Seqs
  import opened Rows
  import opened Ranking
  import opened Filters

  /** `{ label: row['Sub_type'], value: cleanNumber(...) }`. */
  datatype Slice = Slice(name: string, amount: real)

  function SliceValue(s: Slice): real
  {
    s.amount
  }

  function SliceOf(row: Row, q: Quarter, m: Metric): Slice
  {
    Slice(row.subType, Amount(row, q, m))
  }

  /** `rows.map(row => ({ label, value }))` for one quarter. */
  function Slices(rows: seq<Row>, q: Quarter, m: Metric): (r: seq<Slice>)
    ensures |r| == |rows| && forall i :: 0 <= i < |rows| ==> r[i] == SliceOf(rows[i], q, m)
  {
    seq(|rows|, i requires 0 <= i < |rows| => SliceOf(rows[i], q, m))
  }

  /** The chart's `labels` and `datasets[0].data`. */
  datatype PieData = PieData(labels: seq<string>, data: seq<real>)

  const EmptyPie := PieData([], [])

  function Chart(slices: seq<Slice>): (p: PieData)
    ensures |p.labels| == |slices| && |p.data| == |slices|
    ensures forall i :: 0 <= i < |slices| ==> p.labels[i] == slices[i].name && p.data[i] == slices[i].amount
  {
    PieData(seq(|slices|, i requires 0 <= i < |slices| => slices[i].name),
            seq(|slices|, i requires 0 <= i < |slices| => slices[i].amount))
  }

  /** The slices a chart shows, read back from its two arrays. */
  function SlicesOf(p: PieData): (r: seq<Slice>)
    requires |p.labels| == |p.data|
    ensures |r| == |p.labels| && forall i :: 0 <= i < |r| ==> r[i] == Slice(p.labels[i], p.data[i])
  {
    seq(|p.labels|, i requires 0 <= i < |p.labels| => Slice(p.labels[i], p.data[i]))
  }

  /** The rows of the selected type, from all rows. */
  function TypeRows(all: seq<Row>, typeSelection: string): seq<Row>
  {
    Filter(all, HasType(typeSelection))
  }

  /** What one quarter's pie chart shows. */
  function PieSpec(all: seq<Row>, typeSelection: string, q: Quarter, m: Metric): (p: PieData)
    ensures |p.labels| == |p.data|
    ensures typeSelection == All ==> p == EmptyPie
  {
    if typeSelection == All then EmptyPie
    else Chart(SortDesc(Slices(TypeRows(all, typeSelection), q, m), SliceValue))
  }

  /** `updatePieCharts`: empties every chart when every type is selected;
      otherwise, for each quarter, builds the slices of the rows of the
      selected type, sorts them in place by descending value and splits
      them into labels and data. */
  method UpdatePieCharts(all: seq<Row>, typeSelection: string, m: Metric) returns (charts: seq<PieData>)
    ensures |charts| == |Quarters|
    ensures forall i :: 0 <= i < |Quarters| ==> charts[i] == PieSpec(all, typeSelection, Quarters[i], m)
  {
    if typeSelection == All {
      charts := seq(|Quarters|, i => EmptyPie);
      return;
    }
    var rows := TypeRows(all, typeSelection);
    charts := [];
    var i := 0;
    while i < |Quarters|
      invariant 0 <= i <= |Quarters|
      invariant |charts| == i
      invariant forall k :: 0 <= k < i ==> charts[k] == PieSpec(all, typeSelection, Quarters[k], m)
    {
      var chart := QuarterPie(rows, Quarters[i], m);
      charts := charts + [chart];
      i := i + 1;
    }
  }

  /** One quarter's chart: `dataArr`, sorted in place, split into labels
      and data. */
  method QuarterPie(rows: seq<Row>, q: Quarter, m: Metric) returns (chart: PieData)
    ensures chart == Chart(SortDesc(Slices(rows, q, m), SliceValue))
  {
    var dataArr := new Slice[|rows|](j requires 0 <= j < |rows| => SliceOf(rows[j], q, m));
    assert dataArr[..] == Slices(rows, q, m);
    SortInPlace(dataArr, SliceValue);
    chart := Chart(dataArr[..]);
  }

  // ---------------------------------------------------------------------
  // Properties

  /** A chart's values are in non-increasing order. */
  lemma PieSorted(all: seq<Row>, typeSelection: string, q: Quarter, m: Metric)
    ensures var p := PieSpec(all, typeSelection, q, m);
      forall i, j :: 0 <= i < j < |p.data| ==> p.data[i] >= p.data[j]
  {
    if typeSelection != All {
      SortDescSpec(Slices(TypeRows(all, typeSelection), q, m), SliceValue);
    }
  }

  /** A chart shows exactly the rows of the selected type, one slice per
      row (as often as the row occurs), labelled with the row's sub-type
      and sized by its cleaned amount for the quarter. */
  lemma PieContents(all: seq<Row>, typeSelection: string, q: Quarter, m: Metric)
    requires typeSelection != All
    ensures multiset(SlicesOf(PieSpec(all, typeSelection, q, m))) == multiset(Slices(TypeRows(all, typeSelection), q, m))
  {
    var slices := Slices(TypeRows(all, typeSelection), q, m);
    var sorted := SortDesc(slices, SliceValue);
    SortDescSpec(slices, SliceValue);
    assert SlicesOf(PieSpec(all, typeSelection, q, m)) == sorted;
  }

  /** Every label is the sub-type of some row of the selected type, and
      every row of that type is represented. */
  lemma PieLabels(all: seq<Row>, typeSelection: string, q: Quarter, m: Metric)
    requires typeSelection != All
    ensures forall l :: l in PieSpec(all, typeSelection, q, m).labels ==>
              exists row :: row in all && row.txType == typeSelection && row.subType == l
    ensures forall row :: row in all && row.txType == typeSelection ==>
              SliceOf(row, q, m) in SlicesOf(PieSpec(all, typeSelection, q, m))
  {
    var rows := TypeRows(all, typeSelection);
    var slices := Slices(rows, q, m);
    var sorted := SortDesc(slices, SliceValue);
    var p := PieSpec(all, typeSelection, q, m);
    FilterSpec(all, HasType(typeSelection));
    SortDescMembers(slices, SliceValue);
    assert SlicesOf(p) == sorted;
    forall l | l in p.labels
      ensures exists row :: row in all && row.txType == typeSelection && row.subType == l
    {
      var i :| 0 <= i < |p.labels| && p.labels[i] == l;
      assert sorted[i] in slices;
      var k :| 0 <= k < |rows| && slices[k] == sorted[i];
      assert rows[k] in rows;
    }
    forall row | row in all && row.txType == typeSelection
      ensures SliceOf(row, q, m) in sorted
    {
      var k :| 0 <= k < |rows| && rows[k] == row;
      assert slices[k] == SliceOf(row, q, m);
    }
  }

  /** Slices of equal value keep the order of their rows in the data. */
  lemma PieTies(all: seq<Row>, typeSelection: string, q: Quarter, m: Metric, v: real)
    requires typeSelection != All
    ensures Filter(SlicesOf(PieSpec(all, typeSelection, q, m)), KeyIs(SliceValue, v))
            == Filter(Slices(TypeRows(all, typeSelection), q, m), KeyIs(SliceValue, v))
  {
    var slices := Slices(TypeRows(all, typeSelection), q, m);
    assert SlicesOf(PieSpec(all, typeSelection, q, m)) == SortDesc(slices, SliceValue);
    SortDescStable(slices, SliceValue, v);
  }
}
