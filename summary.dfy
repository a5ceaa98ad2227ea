/** The summary cards of `updateSummary` (script.js:190-199): the total
    volume and value of the chosen quarter over the filtered rows, and the
    number of distinct transaction types and sub-types among them. */
module Summary {
  import opened Seqs
  import opened Numbers
  import opened Rows
  import opened Filters

  datatype Stats = Stats(totalVolume: real, totalValue: real, typeCount: nat, subTypeCount: nat)

  /** `rows.reduce((sum, row) => sum + cleanNumber(row[column]), 0)`: a left
      fold, so the last row is added last. */
  function SumAmounts(rows: seq<Row>, q: Quarter, m: Metric): real
  {
    if rows == [] then 0.0
    else SumAmounts(rows[..|rows| - 1], q, m) + Amount(rows[|rows| - 1], q, m)
  }

  /** `new Set(rows.map(row => row['Transaction Type']))`. */
  function TypeSet(rows: seq<Row>): set<string>
  {
    set row | row in rows :: row.txType
  }

  function SubTypeSet(rows: seq<Row>): set<string>
  {
    set row | row in rows :: row.subType
  }

  /** The four summary figures for the chosen quarter. There is at most one
      type and one sub-type per row, at least one of each when there is a
      row, and an empty selection shows 0, 0, 0, 0. */
  function Summarize(rows: seq<Row>, q: Quarter): (s: Stats)
    ensures s.typeCount <= |rows| && s.subTypeCount <= |rows|
    ensures rows != [] ==> s.typeCount >= 1 && s.subTypeCount >= 1
    ensures rows == [] ==> s == Stats(0.0, 0.0, 0, 0)
  {
    CountsBounded(rows);
    Stats(SumAmounts(rows, q, Volume), SumAmounts(rows, q, Value), |TypeSet(rows)|, |SubTypeSet(rows)|)
  }

  lemma {:induction false} CountsBounded(rows: seq<Row>)
    ensures |TypeSet(rows)| <= |rows| && |SubTypeSet(rows)| <= |rows|
    ensures rows != [] ==> |TypeSet(rows)| >= 1 && |SubTypeSet(rows)| >= 1
  {
    if rows != [] {
      var init, last := rows[..|rows| - 1], rows[|rows| - 1];
      assert rows == init + [last];
      CountsBounded(init);
      SetsStep(init, last);
      AddOneSize(TypeSet(init), last.txType);
      AddOneSize(SubTypeSet(init), last.subType);
    }
  }

  lemma SetsStep(init: seq<Row>, last: Row)
    ensures TypeSet(init + [last]) == TypeSet(init) + {last.txType}
    ensures SubTypeSet(init + [last]) == SubTypeSet(init) + {last.subType}
  {
    assert forall row :: row in init + [last] <==> row in init || row == last;
  }

  /** Adding one element grows a set by at most one. */
  lemma AddOneSize(a: set<string>, x: string)
    ensures 1 <= |a + {x}| <= |a| + 1
  {
    if x in a {
      assert a + {x} == a;
    }
  }

  /** Totals are additive over a split of the rows. */
  lemma {:induction false} SumAppend(a: seq<Row>, b: seq<Row>, q: Quarter, m: Metric)
    ensures SumAmounts(a + b, q, m) == SumAmounts(a, q, m) + SumAmounts(b, q, m)
    decreases |b|
  {
    if b == [] {
      assert a + b == a;
    } else {
      var init, last := b[..|b| - 1], b[|b| - 1];
      assert (a + b)[..|a + b| - 1] == a + init;
      assert (a + b)[|a + b| - 1] == last;
      SumAppend(a, init, q, m);
      assert SumAmounts(a + b, q, m) == SumAmounts(a + init, q, m) + Amount(last, q, m);
      assert SumAmounts(b, q, m) == SumAmounts(init, q, m) + Amount(last, q, m);
    }
  }

  /** The distinct types and sub-types of two selections together are
      the union of each one's. */
  lemma SetsAppend(a: seq<Row>, b: seq<Row>)
    ensures TypeSet(a + b) == TypeSet(a) + TypeSet(b)
    ensures SubTypeSet(a + b) == SubTypeSet(a) + SubTypeSet(b)
  {
    assert forall row :: row in a + b <==> row in a || row in b;
  }

  /** The summary is additive over concatenated selections: the totals add
      up and the counts are the sizes of the unions of the distinct values. */
  lemma SummarizeAppend(a: seq<Row>, b: seq<Row>, q: Quarter)
    ensures Summarize(a + b, q).totalVolume == Summarize(a, q).totalVolume + Summarize(b, q).totalVolume
    ensures Summarize(a + b, q).totalValue == Summarize(a, q).totalValue + Summarize(b, q).totalValue
    ensures Summarize(a + b, q).typeCount == |TypeSet(a) + TypeSet(b)|
    ensures Summarize(a + b, q).subTypeCount == |SubTypeSet(a) + SubTypeSet(b)|
  {
    SumAppend(a, b, q, Volume);
    SumAppend(a, b, q, Value);
    SetsAppend(a, b);
  }

  /** Rows whose amount is 0 do not change a total: the rows `resetFilters`
      drops contribute nothing to the Q3 FY25 volume, so the reset view
      shows the same total volume for that quarter as the whole data. */
  lemma ResetKeepsVolumeTotal(all: seq<Row>)
    ensures SumAmounts(ResetRows(all), Q3FY25, Volume) == SumAmounts(all, Q3FY25, Volume)
  {
    var dropped := Filter(all, Not(HasReportedVolume));
    SumSplits(all, HasReportedVolume, Q3FY25, Volume);
    DroppedAreZero(all);
    SumOfZeros(dropped, Q3FY25, Volume);
  }

  /** The rows `resetFilters` drops have a zero Q3 FY25 volume. */
  lemma DroppedAreZero(all: seq<Row>)
    ensures forall row :: row in Filter(all, Not(HasReportedVolume)) ==> Amount(row, Q3FY25, Volume) == 0.0
  {
    FilterSpec(all, Not(HasReportedVolume));
  }

  lemma {:induction false} SumOfZeros(rows: seq<Row>, q: Quarter, m: Metric)
    requires forall row :: row in rows ==> Amount(row, q, m) == 0.0
    ensures SumAmounts(rows, q, m) == 0.0
  {
    if rows != [] {
      SumOfZeros(rows[..|rows| - 1], q, m);
      assert rows[|rows| - 1] in rows;
    }
  }

  /** A total over the selected rows plus the total over the rows left out
      is the total over all rows. */
  lemma {:induction false} SumSplits(all: seq<Row>, p: Row -> bool, q: Quarter, m: Metric)
    ensures SumAmounts(Filter(all, p), q, m) + SumAmounts(Filter(all, Not(p)), q, m)
            == SumAmounts(all, q, m)
  {
    if all != [] {
      var head, tail := all[0], all[1..];
      var notP := Not(p);
      assert all == [head] + tail;
      SumSplits(tail, p, q, m);
      SumAppend([head], tail, q, m);
      SumAppend([head], Filter(tail, p), q, m);
      SumAppend([head], Filter(tail, notP), q, m);
      assert SumAmounts([head], q, m) == Amount(head, q, m);
    }
  }

  /** With a specific type selected the summary counts at most one type,
      and with a specific sub-type at most one sub-type. */
  lemma SelectedCounts(all: seq<Row>, typeSelection: string, subTypeSelection: string, q: Quarter)
    ensures typeSelection != All ==>
              Summarize(ApplyFilters(all, typeSelection, subTypeSelection), q).typeCount <= 1
    ensures subTypeSelection != All ==>
              Summarize(ApplyFilters(all, typeSelection, subTypeSelection), q).subTypeCount <= 1
  {
    var rows := ApplyFilters(all, typeSelection, subTypeSelection);
    if typeSelection != All {
      assert TypeSet(rows) <= {typeSelection};
      SubsetCard(TypeSet(rows), typeSelection);
    }
    if subTypeSelection != All {
      assert SubTypeSet(rows) <= {subTypeSelection};
      SubsetCard(SubTypeSet(rows), subTypeSelection);
    }
  }

  lemma SubsetCard(s: set<string>, x: string)
    requires s <= {x}
    ensures |s| <= 1
  {
    if s != {} {
      assert s == {x};
    }
  }

  /** The sub-type count of the unfiltered data is the number of sub-type
      options offered when every type is selected. */
  lemma SubTypeCountMatchesOptions(all: seq<Row>, q: Quarter)
    ensures Summarize(all, q).subTypeCount == |SubTypeOptions(all, All)| - 1
  {
    var d := DistinctInOrder(SubTypes(all));
    DistinctInOrderSpec(SubTypes(all));
    SubTypesSpec(all);
    assert SubTypeSet(all) == set x | x in d;
    DistinctCard(d);
  }

  /** A sequence without repetitions has as many elements as its set. */
  lemma {:induction false} DistinctCard(d: seq<string>)
    requires NoDuplicates(d)
    ensures |set x | x in d| == |d|
  {
    if d != [] {
      var init := d[..|d| - 1];
      assert d == init + [d[|d| - 1]];
      DistinctCard(init);
      assert (set x | x in d) == (set x | x in init) + {d[|d| - 1]};
    }
  }
}
