/** The trend chart of `updateChart` (script.js:326-355): the filtered rows
    are grouped by the key "<type> - <sub-type>", the first row of a key
    giving its five-quarter series, and the ten groups with the largest
    series totals are drawn, largest first. */
module Trend {
  import opened Seqs
  import opened Rows
  import opened Ranking

  /** A line of the chart: its legend label (`label`) and its five
      quarterly values (`data`). */
  datatype Dataset = Dataset(name: string, series: seq<real>)

  /** The grouping key `${row['Transaction Type']} - ${row['Sub_type']}`. */
  function Key(row: Row): string
  {
    row.txType + " - " + row.subType
  }

  function Keys(rows: seq<Row>): (r: seq<string>)
    ensures |r| == |rows| && forall i :: 0 <= i < |rows| ==> r[i] == Key(rows[i])
  {
    seq(|rows|, i requires 0 <= i < |rows| => Key(rows[i]))
  }

  /** The first row carrying key `k`. */
  function FirstWithKey(rows: seq<Row>, k: string): (row: Row)
    requires k in Keys(rows)
    ensures row in rows && Key(row) == k
  {
    rows[FirstIndex(Keys(rows), k)]
  }

  /** The dataset a row creates: its key and its series for the metric. */
  function DatasetOf(row: Row, m: Metric): Dataset
  {
    Dataset(Key(row), Series(row, m))
  }

  /** `Object.values(groupedData)`: one dataset per distinct key, in the
      order the keys were first seen, each built from the first row with
      that key. */
  function Groups(rows: seq<Row>, m: Metric): (r: seq<Dataset>)
    ensures |r| == |DistinctInOrder(Keys(rows))|
  {
    var ks := DistinctInOrder(Keys(rows));
    DistinctInOrderSpec(Keys(rows));
    seq(|ks|, i requires 0 <= i < |ks| => DatasetOf(FirstWithKey(rows, ks[i]), m))
  }

  /** `data.reduce((sum, val) => sum + val, 0)`. */
  function Total(data: seq<real>): real
  {
    if data == [] then 0.0 else Total(data[..|data| - 1]) + data[|data| - 1]
  }

  function DatasetTotal(d: Dataset): real
  {
    Total(d.series)
  }

  /** `.slice(0, n)`. */
  function Take<T>(s: seq<T>, n: nat): (r: seq<T>)
    ensures |r| == if |s| <= n then |s| else n
    ensures r == s[..|r|]
  {
    if |s| <= n then s else s[..n]
  }

  /** The datasets the chart shows. */
  function TopTrend(rows: seq<Row>, m: Metric): seq<Dataset>
  {
    Take(SortDesc(Groups(rows, m), DatasetTotal), 10)
  }

  // ---------------------------------------------------------------------
  // The grouping loop

  lemma KeysPrefix(rows: seq<Row>, i: nat)
    requires i < |rows|
    ensures Keys(rows[..i + 1]) == Keys(rows[..i]) + [Key(rows[i])]
  {
  }

  /** A key already seen keeps its first row when another row is read. */
  lemma FirstWithKeyKept(rows: seq<Row>, i: nat, k: string)
    requires i < |rows| && k in Keys(rows[..i])
    ensures k in Keys(rows[..i + 1]) && FirstWithKey(rows[..i + 1], k) == FirstWithKey(rows[..i], k)
  {
    KeysPrefix(rows, i);
    FirstIndexAppend(Keys(rows[..i]), Key(rows[i]), k);
  }

  /** A key seen for the first time has the row just read as first row. */
  lemma FirstWithKeyNew(rows: seq<Row>, i: nat)
    requires i < |rows| && Key(rows[i]) !in Keys(rows[..i])
    ensures Key(rows[i]) in Keys(rows[..i + 1]) && FirstWithKey(rows[..i + 1], Key(rows[i])) == rows[i]
  {
    KeysPrefix(rows, i);
    var ks := Keys(rows[..i + 1]);
    assert ks[i] == Key(rows[i]);
    assert FirstIndex(ks, Key(rows[i])) == i;
  }

  /** The groups are built as the `forEach` of script.js:328-346 builds
      `groupedData`: a map from key to dataset, filled only for keys not
      yet present, then read back in key-insertion order. */
  ghost predicate Grouped(rows: seq<Row>, m: Metric, grouped: map<string, Dataset>, order: seq<string>)
  {
    && order == DistinctInOrder(Keys(rows))
    && (forall k :: k in grouped ==> k in order)
    && (forall k :: k in order ==> k in grouped)
    && (forall k :: k in grouped ==> k in Keys(rows) && grouped[k] == DatasetOf(FirstWithKey(rows, k), m))
  }

  /** Reading a row whose key is already present changes nothing. */
  lemma GroupKeep(rows: seq<Row>, i: nat, m: Metric, grouped: map<string, Dataset>, order: seq<string>)
    requires i < |rows| && Grouped(rows[..i], m, grouped, order) && Key(rows[i]) in grouped
    ensures Grouped(rows[..i + 1], m, grouped, order)
  {
    var k := Key(rows[i]);
    KeysPrefix(rows, i);
    DistinctInOrderAppend(Keys(rows[..i]), k);
    forall k' | k' in grouped
      ensures k' in Keys(rows[..i + 1]) && FirstWithKey(rows[..i + 1], k') == FirstWithKey(rows[..i], k')
    {
      FirstWithKeyKept(rows, i, k');
    }
  }

  /** Reading a row with a new key adds its dataset, last in key order. */
  lemma GroupAdd(rows: seq<Row>, i: nat, m: Metric, grouped: map<string, Dataset>, order: seq<string>)
    requires i < |rows| && Grouped(rows[..i], m, grouped, order) && Key(rows[i]) !in grouped
    ensures Grouped(rows[..i + 1], m, grouped[Key(rows[i]) := DatasetOf(rows[i], m)], order + [Key(rows[i])])
  {
    var k := Key(rows[i]);
    assert k !in order;
    NewKeyOrder(rows, i, order);
    NewKeyEntries(rows, i, m, grouped);
  }

  lemma NewKeyOrder(rows: seq<Row>, i: nat, order: seq<string>)
    requires i < |rows| && order == DistinctInOrder(Keys(rows[..i])) && Key(rows[i]) !in order
    ensures Key(rows[i]) !in Keys(rows[..i])
    ensures order + [Key(rows[i])] == DistinctInOrder(Keys(rows[..i + 1]))
  {
    KeysPrefix(rows, i);
    DistinctInOrderSpec(Keys(rows[..i]));
    DistinctInOrderAppend(Keys(rows[..i]), Key(rows[i]));
  }

  lemma NewKeyEntries(rows: seq<Row>, i: nat, m: Metric, grouped: map<string, Dataset>)
    requires i < |rows| && Key(rows[i]) !in Keys(rows[..i])
    requires forall k :: k in grouped ==> k in Keys(rows[..i]) && grouped[k] == DatasetOf(FirstWithKey(rows[..i], k), m)
    ensures var grouped' := grouped[Key(rows[i]) := DatasetOf(rows[i], m)];
      forall k :: k in grouped' ==> k in Keys(rows[..i + 1]) && grouped'[k] == DatasetOf(FirstWithKey(rows[..i + 1], k), m)
  {
    var grouped' := grouped[Key(rows[i]) := DatasetOf(rows[i], m)];
    forall k | k in grouped'
      ensures k in Keys(rows[..i + 1]) && grouped'[k] == DatasetOf(FirstWithKey(rows[..i + 1], k), m)
    {
      if k == Key(rows[i]) {
        FirstWithKeyNew(rows, i);
      } else {
        FirstWithKeyKept(rows, i, k);
      }
    }
  }

  /** `updateChart`: groups the rows in one pass, reads the groups back in
      insertion order, sorts them in place by descending total and keeps
      the first ten. */
  method UpdateChart(rows: seq<Row>, m: Metric) returns (datasets: seq<Dataset>)
    ensures datasets == TopTrend(rows, m)
  {
    var grouped: map<string, Dataset> := map[];
    var order: seq<string> := [];  // the object's keys in insertion order
    var i := 0;
    while i < |rows|
      invariant 0 <= i <= |rows|
      invariant Grouped(rows[..i], m, grouped, order)
    {
      var key := Key(rows[i]);
      if key in grouped {
        GroupKeep(rows, i, m, grouped, order);
      } else {
        GroupAdd(rows, i, m, grouped, order);
        grouped := grouped[key := Dataset(key, Series(rows[i], m))];
        order := order + [key];
      }
      i := i + 1;
    }
    assert rows[..i] == rows;
    var groups := GroupValues(rows, m, grouped, order);
    var ranked := new Dataset[|groups|](j requires 0 <= j < |groups| => groups[j]);
    assert ranked[..] == groups;
    SortInPlace(ranked, DatasetTotal);
    datasets := if ranked.Length <= 10 then ranked[..] else ranked[..10];
  }

  /** `Object.values(groupedData)`: the datasets in key-insertion order.
      A key of the form "<type> - <sub-type>" contains a space, so it is
      never an array-index key (which objects would list first). */
  method GroupValues(rows: seq<Row>, m: Metric, grouped: map<string, Dataset>, order: seq<string>)
    returns (values: seq<Dataset>)
    requires Grouped(rows, m, grouped, order)
    ensures values == Groups(rows, m)
  {
    DistinctInOrderSpec(Keys(rows));
    values := [];
    var j := 0;
    while j < |order|
      invariant 0 <= j <= |order|
      invariant |values| == j
      invariant forall k :: 0 <= k < j ==> values[k] == Groups(rows, m)[k]
    {
      values := values + [grouped[order[j]]];
      j := j + 1;
    }
  }

  // ---------------------------------------------------------------------
  // Properties of the chart

  /** One dataset per distinct key, in first-seen key order, each holding
      the series of the first row with that key: later rows with the same
      key are ignored. */
  lemma GroupsSpec(rows: seq<Row>, m: Metric)
    ensures forall i :: 0 <= i < |Groups(rows, m)| ==> Groups(rows, m)[i].name == DistinctInOrder(Keys(rows))[i]
    ensures forall d :: d in Groups(rows, m) ==>
              d.name in Keys(rows) && d.series == Series(FirstWithKey(rows, d.name), m)
    ensures forall row :: row in rows ==> DatasetOf(FirstWithKey(rows, Key(row)), m) in Groups(rows, m)
  {
    var ks := DistinctInOrder(Keys(rows));
    var g := Groups(rows, m);
    DistinctInOrderSpec(Keys(rows));
    forall row | row in rows
      ensures DatasetOf(FirstWithKey(rows, Key(row)), m) in g
    {
      var i :| 0 <= i < |rows| && rows[i] == row;
      assert Keys(rows)[i] == Key(row);
      assert Key(row) in Keys(rows);
      var j :| 0 <= j < |ks| && ks[j] == Key(row);
      assert g[j] == DatasetOf(FirstWithKey(rows, Key(row)), m);
    }
  }

  /** No two datasets of the chart share a label. */
  lemma GroupNamesDistinct(rows: seq<Row>, m: Metric)
    ensures forall i, j :: 0 <= i < j < |Groups(rows, m)| ==> Groups(rows, m)[i].name != Groups(rows, m)[j].name
  {
    GroupsSpec(rows, m);
    DistinctInOrderSpec(Keys(rows));
  }

  /** At most ten datasets are drawn, and fewer only when there are fewer
      groups. */
  lemma TopTrendSize(rows: seq<Row>, m: Metric)
    ensures |TopTrend(rows, m)| <= 10
    ensures |TopTrend(rows, m)| == if |Groups(rows, m)| <= 10 then |Groups(rows, m)| else 10
  {
    assert |SortDesc(Groups(rows, m), DatasetTotal)| == |Groups(rows, m)|;
  }

  /** The datasets are in non-increasing order of their series totals. */
  lemma TopTrendSorted(rows: seq<Row>, m: Metric)
    ensures SortedDesc(TopTrend(rows, m), DatasetTotal)
  {
    var sorted := SortDesc(Groups(rows, m), DatasetTotal);
    SortDescSpec(Groups(rows, m), DatasetTotal);
    assert TopTrend(rows, m) == sorted[..|TopTrend(rows, m)|];
  }

  /** Every drawn dataset is one of the groups: its label is a key of the
      rows and its series is that of the key's first row. */
  lemma TopTrendFromGroups(rows: seq<Row>, m: Metric)
    ensures forall d :: d in TopTrend(rows, m) ==> d in Groups(rows, m)
    ensures forall d :: d in TopTrend(rows, m) ==>
              d.name in Keys(rows) && d.series == Series(FirstWithKey(rows, d.name), m)
  {
    var sorted := SortDesc(Groups(rows, m), DatasetTotal);
    SortDescMembers(Groups(rows, m), DatasetTotal);
    GroupsSpec(rows, m);
    forall d | d in TopTrend(rows, m)
      ensures d in Groups(rows, m)
    {
      var i :| 0 <= i < |TopTrend(rows, m)| && TopTrend(rows, m)[i] == d;
      assert sorted[i] == d;
    }
  }

  /** The drawn datasets are the top ten: a group left out has a total no
      larger than that of any drawn dataset. */
  lemma TopTrendIsTop(rows: seq<Row>, m: Metric)
    ensures forall g, d :: g in Groups(rows, m) && g !in TopTrend(rows, m) && d in TopTrend(rows, m) ==>
              DatasetTotal(g) <= DatasetTotal(d)
  {
    var sorted := SortDesc(Groups(rows, m), DatasetTotal);
    var top := TopTrend(rows, m);
    SortDescSpec(Groups(rows, m), DatasetTotal);
    SortDescMembers(Groups(rows, m), DatasetTotal);
    forall g, d | g in Groups(rows, m) && g !in top && d in top
      ensures DatasetTotal(g) <= DatasetTotal(d)
    {
      var k :| 0 <= k < |sorted| && sorted[k] == g;
      var i :| 0 <= i < |top| && top[i] == d;
      assert sorted[i] == d;
      assert forall j :: 0 <= j < |top| ==> top[j] == sorted[j];
      assert k >= |top|;
    }
  }

  /** Ties keep the order in which the groups were created: the drawn
      datasets with any one total are the first groups with that total, in
      group order. */
  lemma TopTrendTies(rows: seq<Row>, m: Metric, v: real)
    ensures var shown := Filter(TopTrend(rows, m), KeyIs(DatasetTotal, v));
      |shown| <= |Filter(Groups(rows, m), KeyIs(DatasetTotal, v))| &&
      shown == Filter(Groups(rows, m), KeyIs(DatasetTotal, v))[..|shown|]
  {
    var sorted := SortDesc(Groups(rows, m), DatasetTotal);
    var top := TopTrend(rows, m);
    var p := KeyIs(DatasetTotal, v);
    assert sorted == top + sorted[|top|..];
    FilterAppend(top, sorted[|top|..], p);
    SortDescStable(Groups(rows, m), DatasetTotal, v);
  }
}
