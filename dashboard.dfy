/** The dashboard's state: the loaded rows `allData`, the current selection
    `filteredData` (script.js:2-3) and the values of the three selectors,
    with the operations that reassign them. The charts, cards, table and
    export are read off this state. */
module Page {
  import opened Seqs
  import opened Rows
  import opened Filters
  import opened Summary
  import opened Ranking
  import opened Trend
  import opened Pie
  import opened Export

  /** A set inside another is no larger. */
  lemma {:induction false} SubsetSize(a: set<string>, b: set<string>)
    requires a <= b
    ensures |a| <= |b|
  {
    assert b == a + (b - a);
  }

  class Dashboard {
    var allData: seq<Row>
    var filteredData: seq<Row>
    /** `transactionTypeSelect.value`. */
    var typeSelection: string
    /** `subTypeSelect.value` and the option values of that selector. */
    var subTypeSelection: string
    var subTypeOptions: seq<string>
    /** `metricTypeSelect.value`. */
    var metric: Metric

    /** The page's invariant, kept by every handler and relied on by the
        views: the selection is always drawn from the loaded rows in their
        order, the sub-type selector lists the sub-types of the selected
        type, and its value is one of its options. */
    ghost predicate Valid()
      reads this
    {
      && IsSubsequence(filteredData, allData)
      && subTypeOptions == SubTypeOptions(allData, typeSelection)
      && subTypeSelection in subTypeOptions
    }

    /** `loadData` once the rows are parsed (script.js:44-50): everything is
        selected and the sub-type selector lists every sub-type. */
    constructor Load(rows: seq<Row>)
      ensures Valid()
      ensures allData == rows && filteredData == rows
      ensures typeSelection == All && subTypeSelection == All && metric == Volume
      ensures subTypeOptions == [All] + DistinctInOrder(SubTypes(rows))
    {
      allData := rows;
      filteredData := rows;
      typeSelection := All;
      subTypeSelection := All;
      metric := Volume;
      subTypeOptions := [All] + DistinctInOrder(SubTypes(rows));
      SubsequenceRefl(rows);
    }

    /** `updateSubTypeOptions` (script.js:110-140). Rebuilding the options
        resets the selector to its first option, `'all'`. */
    method UpdateSubTypeOptions()
      modifies this
      ensures subTypeOptions == SubTypeOptions(allData, typeSelection)
      ensures subTypeSelection == All
      ensures allData == old(allData) && filteredData == old(filteredData)
      ensures typeSelection == old(typeSelection) && metric == old(metric)
    {
      subTypeOptions := SubTypeOptions(allData, typeSelection);
      subTypeSelection := All;
    }

    /** `applyFilters` (script.js:143-160). */
    method ApplyFilters()
      requires Valid()
      modifies this
      ensures Valid()
      ensures filteredData == Filters.ApplyFilters(allData, typeSelection, subTypeSelection)
      ensures allData == old(allData) && typeSelection == old(typeSelection)
      ensures subTypeSelection == old(subTypeSelection) && subTypeOptions == old(subTypeOptions)
      ensures metric == old(metric)
    {
      filteredData := Filters.ApplyFilters(allData, typeSelection, subTypeSelection);
    }

    /** `resetFilters` (script.js:163-179): every selector back to its
        default, and the selection becomes the rows with a non-zero Q3 FY25
        volume (not every row, although both selectors then read 'all'). */
    method ResetFilters()
      requires Valid()
      modifies this
      ensures Valid()
      ensures typeSelection == All && subTypeSelection == All && metric == Volume
      ensures filteredData == ResetRows(allData)
      ensures subTypeOptions == SubTypeOptions(allData, All)
      ensures allData == old(allData)
    {
      typeSelection := All;
      subTypeSelection := All;
      metric := Volume;
      filteredData := ResetRows(allData);
      UpdateSubTypeOptions();
    }

    /** Choosing a transaction type (script.js:68-72): the sub-type list is
        rebuilt for it and the rows are filtered with sub-type 'all'. */
    method SelectType(t: string)
      requires Valid()
      modifies this
      ensures Valid()
      ensures typeSelection == t && subTypeSelection == All
      ensures subTypeOptions == SubTypeOptions(allData, t)
      ensures filteredData == Filters.ApplyFilters(allData, t, All)
      ensures allData == old(allData) && metric == old(metric)
    {
      typeSelection := t;
      UpdateSubTypeOptions();
      ApplyFilters();
    }

    /** Choosing a sub-type (script.js:73-76); the selector only offers its
        options. */
    method SelectSubType(s: string)
      requires Valid() && s in subTypeOptions
      modifies this
      ensures Valid()
      ensures subTypeSelection == s
      ensures filteredData == Filters.ApplyFilters(allData, typeSelection, s)
      ensures allData == old(allData) && typeSelection == old(typeSelection)
      ensures subTypeOptions == old(subTypeOptions) && metric == old(metric)
    {
      subTypeSelection := s;
      ApplyFilters();
    }

    /** Choosing a metric (script.js:77-80): the selection is recomputed
        and does not depend on the metric. */
    method SelectMetric(m: Metric)
      requires Valid()
      modifies this
      ensures Valid()
      ensures metric == m
      ensures filteredData == Filters.ApplyFilters(allData, typeSelection, subTypeSelection)
      ensures allData == old(allData) && typeSelection == old(typeSelection)
      ensures subTypeSelection == old(subTypeSelection) && subTypeOptions == old(subTypeOptions)
    {
      metric := m;
      ApplyFilters();
    }

    // -------------------------------------------------------------------
    // What the page shows

    /** The summary cards for a quarter: over the selection, so they never
        count more types or sub-types than the loaded rows have. */
    function Cards(q: Quarter): (s: Stats)
      requires Valid()
      reads this
      ensures s.typeCount <= |filteredData| && s.subTypeCount <= |filteredData|
      ensures s.typeCount <= |TypeSet(allData)| && s.subTypeCount <= |SubTypeSet(allData)|
    {
      SubsequenceMembers(filteredData, allData);
      SubsetSize(TypeSet(filteredData), TypeSet(allData));
      SubsetSize(SubTypeSet(filteredData), SubTypeSet(allData));
      Summarize(filteredData, q)
    }

    /** The trend chart: over the selection, for the chosen metric. */
    function TrendChart(): (r: seq<Dataset>)
      reads this
      ensures |r| <= 10 && SortedDesc(r, DatasetTotal)
    {
      TopTrendSize(filteredData, metric);
      TopTrendSorted(filteredData, metric);
      TopTrend(filteredData, metric)
    }

    /** A quarter's pie chart: over all rows of the selected type, whatever
        the selection; empty when every type is selected. */
    function PieChart(q: Quarter): (p: PieData)
      reads this
      ensures typeSelection == All ==> p == EmptyPie
      ensures |p.labels| == |p.data|
    {
      PieSpec(allData, typeSelection, q, metric)
    }

    /** The exported file: the selection. */
    function ExportText(): (t: string)
      reads this
      ensures filteredData == [] ==> t == HeaderLine()
    {
      HeaderFirst(filteredData);
      Csv(filteredData)
    }

    /** The table: the selection or all rows, narrowed by the search; every
        row it lists is a loaded row. */
    function Table(showFiltered: bool, term: string): (r: seq<Row>)
      requires Valid()
      reads this
      ensures IsSubsequence(r, if showFiltered then filteredData else allData)
      ensures forall row :: row in r ==> row in allData
    {
      SubsequenceMembers(filteredData, allData);
      TableRows(allData, filteredData, showFiltered, term)
    }
  }
}
