/** The row selections of the dashboard: the type/sub-type selector filter
    (`applyFilters`), the reset filter (`resetFilters`), the option lists of
    the selectors (`populateFilters`, `updateSubTypeOptions`) and the
    table's text search (`updateTable`). */
module Filters {
  import opened Seqs
  import opened Numbers
  import opened Rows

  /** The selector value meaning "no restriction". */
  const All: string := "all"

  /** A selector accepts a value when it is `'all'` or equal to it. */
  predicate Selects(selection: string, value: string)
  {
    selection == All || value == selection
  }

  predicate MatchesSelection(typeSelection: string, subTypeSelection: string, row: Row)
  {
    Selects(typeSelection, row.txType) && Selects(subTypeSelection, row.subType)
  }

  function SelectionFilter(typeSelection: string, subTypeSelection: string): Row -> bool
  {
    (row: Row) => MatchesSelection(typeSelection, subTypeSelection, row)
  }

  /** `allData.filter(...)` of `applyFilters` (script.js:147-154): exactly
      the rows both selectors accept, each as often as in `all`, in the
      order of `all`. */
  function ApplyFilters(all: seq<Row>, typeSelection: string, subTypeSelection: string): (r: seq<Row>)
    ensures forall row :: row in r ==> row in all && MatchesSelection(typeSelection, subTypeSelection, row)
    ensures forall row :: row in all && MatchesSelection(typeSelection, subTypeSelection, row) ==> row in r
    ensures forall row :: multiset(r)[row] ==
              if MatchesSelection(typeSelection, subTypeSelection, row) then multiset(all)[row] else 0
    ensures IsSubsequence(r, all)
  {
    var p := SelectionFilter(typeSelection, subTypeSelection);
    FilterSpec(all, p);
    Filter(all, p)
  }

  /** With both selectors on `'all'` nothing is filtered out. */
  lemma SelectAllKeepsEverything(all: seq<Row>)
    ensures ApplyFilters(all, All, All) == all
  {
    FilterAll(all, SelectionFilter(All, All));
  }

  /** With a specific type (and sub-type) selected, every kept row carries
      it. */
  lemma SelectedRowsCarrySelection(all: seq<Row>, typeSelection: string, subTypeSelection: string)
    requires typeSelection != All
    ensures forall row :: row in ApplyFilters(all, typeSelection, subTypeSelection) ==> row.txType == typeSelection
    ensures subTypeSelection != All ==>
              forall row :: row in ApplyFilters(all, typeSelection, subTypeSelection) ==> row.subType == subTypeSelection
  {
  }

  predicate HasReportedVolume(row: Row)
  {
    Amount(row, Q3FY25, Volume) != 0.0
  }

  /** The column `resetFilters` reads, `${'Q3_FY25'}_${'volume' capitalised}`. */
  lemma ResetColumn()
    ensures QuarterName(Q3FY25) + "_" + Capitalize(SelectValue(Volume)) == Column(Q3FY25, Volume)
  {
    MetricSuffix(Volume);
  }

  /** The filter of `resetFilters` (script.js:168-173): exactly the rows
      whose cleaned `Q3_FY25_Volume` is non-zero, in order. The `isNaN`
      half of the source's test never rejects anything, as a cleaned
      number is never NaN. */
  function ResetRows(all: seq<Row>): (r: seq<Row>)
    ensures forall row :: row in r ==> row in all && Amount(row, Q3FY25, Volume) != 0.0
    ensures forall row :: row in all && Amount(row, Q3FY25, Volume) != 0.0 ==> row in r
    ensures forall row :: multiset(r)[row] == if HasReportedVolume(row) then multiset(all)[row] else 0
    ensures IsSubsequence(r, all)
  {
    FilterSpec(all, HasReportedVolume);
    Filter(all, HasReportedVolume)
  }

  function SubTypes(rows: seq<Row>): (r: seq<string>)
    ensures |r| == |rows| && forall i :: 0 <= i < |rows| ==> r[i] == rows[i].subType
  {
    seq(|rows|, i requires 0 <= i < |rows| => rows[i].subType)
  }

  function TransactionTypes(rows: seq<Row>): (r: seq<string>)
    ensures |r| == |rows| && forall i :: 0 <= i < |rows| ==> r[i] == rows[i].txType
  {
    seq(|rows|, i requires 0 <= i < |rows| => rows[i].txType)
  }

  function HasType(t: string): Row -> bool
  {
    (row: Row) => row.txType == t
  }

  /** The rows whose sub-types are offered for a type selection. */
  function OfferedRows(all: seq<Row>, typeSelection: string): seq<Row>
  {
    if typeSelection == All then all else Filter(all, HasType(typeSelection))
  }

  /** The sub-type options `updateSubTypeOptions` builds (script.js:114-131):
      the `'all'` option, then every sub-type of the offered rows once, in
      the order of its first occurrence. */
  function SubTypeOptions(all: seq<Row>, typeSelection: string): (r: seq<string>)
    ensures |r| >= 1 && r[0] == All
  {
    [All] + DistinctInOrder(SubTypes(OfferedRows(all, typeSelection)))
  }

  lemma OfferedRowsSpec(all: seq<Row>, typeSelection: string)
    ensures forall row :: row in OfferedRows(all, typeSelection) ==> row in all && Selects(typeSelection, row.txType)
    ensures forall row :: row in all && Selects(typeSelection, row.txType) ==> row in OfferedRows(all, typeSelection)
  {
    if typeSelection != All {
      FilterSpec(all, HasType(typeSelection));
    }
  }

  lemma SubTypesSpec(rows: seq<Row>)
    ensures forall s :: s in SubTypes(rows) ==> exists row :: row in rows && row.subType == s
    ensures forall row :: row in rows ==> row.subType in SubTypes(rows)
  {
    var names := SubTypes(rows);
    forall s | s in names
      ensures exists row :: row in rows && row.subType == s
    {
      var i :| 0 <= i < |names| && names[i] == s;
      assert rows[i] in rows;
    }
    forall row | row in rows
      ensures row.subType in names
    {
      var i :| 0 <= i < |rows| && rows[i] == row;
      assert names[i] == row.subType;
    }
  }

  /** The option list is exactly as promised: no sub-type twice, a sub-type
      is offered iff some row of the selected type (any row for `'all'`)
      has it, and options appear in first-seen order. */
  lemma SubTypeOptionsSpec(all: seq<Row>, typeSelection: string)
    ensures NoDuplicates(SubTypeOptions(all, typeSelection)[1..])
    ensures forall s :: s in SubTypeOptions(all, typeSelection)[1..] ==>
              exists row :: row in all && Selects(typeSelection, row.txType) && row.subType == s
    ensures forall row :: row in all && Selects(typeSelection, row.txType) ==>
              row.subType in SubTypeOptions(all, typeSelection)[1..]
    ensures forall i, j :: 1 <= i < j < |SubTypeOptions(all, typeSelection)| ==>
              SubTypeOptions(all, typeSelection)[i] in SubTypes(OfferedRows(all, typeSelection)) &&
              SubTypeOptions(all, typeSelection)[j] in SubTypes(OfferedRows(all, typeSelection)) &&
              FirstIndex(SubTypes(OfferedRows(all, typeSelection)), SubTypeOptions(all, typeSelection)[i])
              < FirstIndex(SubTypes(OfferedRows(all, typeSelection)), SubTypeOptions(all, typeSelection)[j])
  {
    var rows := OfferedRows(all, typeSelection);
    var names := SubTypes(rows);
    var d := DistinctInOrder(names);
    assert SubTypeOptions(all, typeSelection)[1..] == d;
    DistinctInOrderSpec(names);
    OfferedRowsSpec(all, typeSelection);
    SubTypesSpec(rows);
    forall i, j | 1 <= i < j < |SubTypeOptions(all, typeSelection)|
      ensures d[i - 1] == SubTypeOptions(all, typeSelection)[i] && d[j - 1] == SubTypeOptions(all, typeSelection)[j]
    {
    }
  }

  /** The type options `populateFilters` appends after `'all'`
      (script.js:89): every type of the data once, in first-seen order. */
  function TypeOptions(all: seq<Row>): (r: seq<string>)
    ensures |r| >= 1 && r[0] == All
  {
    [All] + DistinctInOrder(TransactionTypes(all))
  }

  lemma TypeOptionsSpec(all: seq<Row>)
    ensures NoDuplicates(TypeOptions(all)[1..])
    ensures forall row :: row in all ==> row.txType in TypeOptions(all)[1..]
    ensures forall t :: t in TypeOptions(all)[1..] ==> exists row :: row in all && row.txType == t
    ensures forall i, j :: 1 <= i < j < |TypeOptions(all)| ==>
              TypeOptions(all)[i] in TransactionTypes(all) &&
              TypeOptions(all)[j] in TransactionTypes(all) &&
              FirstIndex(TransactionTypes(all), TypeOptions(all)[i])
              < FirstIndex(TransactionTypes(all), TypeOptions(all)[j])
  {
    var names := TransactionTypes(all);
    var d := DistinctInOrder(names);
    assert TypeOptions(all)[1..] == d;
    DistinctInOrderSpec(names);
    forall i, j | 1 <= i < j < |TypeOptions(all)|
      ensures d[i - 1] == TypeOptions(all)[i] && d[j - 1] == TypeOptions(all)[j]
    {
    }
    forall row | row in all
      ensures row.txType in names
    {
      var i :| 0 <= i < |all| && all[i] == row;
      assert names[i] == row.txType;
    }
    forall t | t in DistinctInOrder(names)
      ensures exists row :: row in all && row.txType == t
    {
      var i :| 0 <= i < |names| && names[i] == t;
      assert all[i] in all;
    }
  }

  // ---------------------------------------------------------------------
  // The table search (script.js:208-217)

  /** `toLowerCase` on ASCII letters; other characters are unchanged. */
  function LowerAscii(c: char): char
  {
    if 'A' <= c <= 'Z' then (c as int + 32) as char else c
  }

  function Lower(s: string): (r: string)
    ensures |r| == |s| && forall i :: 0 <= i < |s| ==> r[i] == LowerAscii(s[i])
  {
    seq(|s|, i requires 0 <= i < |s| => LowerAscii(s[i]))
  }

  lemma LowerIdempotent(s: string)
    ensures Lower(Lower(s)) == Lower(s)
  {
    assert forall i :: 0 <= i < |s| ==> LowerAscii(LowerAscii(s[i])) == LowerAscii(s[i]);
  }

  /** `s.includes(t)`: `t` occurs in `s` at some position. */
  predicate Contains(s: string, t: string)
    decreases |s|
  {
    (|t| <= |s| && s[..|t|] == t) || (s != [] && Contains(s[1..], t))
  }

  /** An occurrence found by `Contains` splits `s` around `t`. */
  lemma {:induction false} ContainsSplits(s: string, t: string) returns (a: string, b: string)
    requires Contains(s, t)
    ensures s == a + t + b
    decreases |s|
  {
    if |t| <= |s| && s[..|t|] == t {
      a, b := [], s[|t|..];
      assert s == a + t + b;
    } else {
      var a', b' := ContainsSplits(s[1..], t);
      a, b := [s[0]] + a', b';
      assert s == [s[0]] + s[1..];
    }
  }

  /** `t` placed after any text is found by `Contains`. */
  lemma {:induction false} ContainsAfter(a: string, t: string, b: string)
    ensures Contains(a + t + b, t)
    decreases |a|
  {
    var s := a + t + b;
    if a == [] {
      assert s[..|t|] == t;
    } else {
      assert s[1..] == a[1..] + t + b;
      ContainsAfter(a[1..], t, b);
    }
  }

  /** `Contains` is the substring relation. */
  lemma ContainsIff(s: string, t: string)
    ensures Contains(s, t) <==> exists a, b :: s == a + t + b
  {
    if Contains(s, t) {
      var a, b := ContainsSplits(s, t);
    }
    if exists a, b :: s == a + t + b {
      var a, b :| s == a + t + b;
      ContainsAfter(a, t, b);
    }
  }

  /** The search predicate of `updateTable`: the lower-cased term occurs in
      the lower-cased type or the lower-cased sub-type. */
  predicate SearchHit(term: string, row: Row)
  {
    Contains(Lower(row.txType), Lower(term)) || Contains(Lower(row.subType), Lower(term))
  }

  function SearchFilter(term: string): Row -> bool
  {
    (row: Row) => SearchHit(term, row)
  }

  /** The rows the table lists: `filteredData` when the table selector says
      'filtered', otherwise `allData`, narrowed by the search. */
  function TableRows(all: seq<Row>, filtered: seq<Row>, showFiltered: bool, term: string): (r: seq<Row>)
    ensures var shown := if showFiltered then filtered else all;
      && IsSubsequence(r, shown)
      && (forall row :: row in r ==> row in shown && SearchHit(term, row))
      && (forall row :: row in shown && SearchHit(term, row) ==> row in r)
      && (forall row :: multiset(r)[row] == if SearchHit(term, row) then multiset(shown)[row] else 0)
  {
    var shown := if showFiltered then filtered else all;
    FilterSpec(shown, SearchFilter(term));
    Filter(shown, SearchFilter(term))
  }

  /** An empty search box lists every row. */
  lemma EmptySearchShowsAll(all: seq<Row>, filtered: seq<Row>, showFiltered: bool)
    ensures TableRows(all, filtered, showFiltered, "") == if showFiltered then filtered else all
  {
    var shown := if showFiltered then filtered else all;
    forall row | row in shown
      ensures SearchHit("", row)
    {
      assert Lower(row.txType)[..0] == Lower("");
    }
    FilterAll(shown, SearchFilter(""));
  }

  /** The search ignores the case of the term: typing it in lower case
      lists the same rows. */
  lemma SearchIgnoresCase(rows: seq<Row>, term: string)
    ensures Filter(rows, SearchFilter(Lower(term))) == Filter(rows, SearchFilter(term))
  {
    LowerIdempotent(term);
    FilterCongruent(rows, SearchFilter(Lower(term)), SearchFilter(term));
  }

  /** A row whose type contains the term, in whatever case, is listed. */
  lemma TypeMatchIsListed(all: seq<Row>, filtered: seq<Row>, showFiltered: bool, term: string, row: Row, a: string, b: string)
    requires row in (if showFiltered then filtered else all)
    requires Lower(row.txType) == a + Lower(term) + b
    ensures row in TableRows(all, filtered, showFiltered, term)
  {
    ContainsIff(Lower(row.txType), Lower(term));
  }
}
