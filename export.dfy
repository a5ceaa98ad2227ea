/** The CSV text of `exportToCSV` (script.js:391-402): a header line of
    the twelve fixed column names, then one line per filtered row with its
    fields in header order. A field is wrapped in double quotes only when
    it contains a comma; embedded quotes are not escaped. Lines are joined
    with a line feed. */
module Export {
  import opened Seqs
  import opened Rows

  /** The column names, in export order (script.js:392). */
  const Headers: seq<string> := [
    "Transaction Type", "Sub_type",
    "Q3_FY24_Volume", "Q3_FY24_Value", "Q4_FY24_Volume", "Q4_FY24_Value",
    "Q1_FY25_Volume", "Q1_FY25_Value", "Q2_FY25_Volume", "Q2_FY25_Value",
    "Q3_FY25_Volume", "Q3_FY25_Value"]

  /** After the two classification columns, the headers list each quarter's
      volume and value columns, in quarter order. */
  lemma HeadersLayout()
    ensures |Headers| == 12 && Headers[0] == "Transaction Type" && Headers[1] == "Sub_type"
    ensures forall i :: 0 <= i < |Quarters| ==>
              Headers[2 + 2 * i] == Column(Quarters[i], Volume) && Headers[3 + 2 * i] == Column(Quarters[i], Value)
  {
    forall i | 0 <= i < |Quarters|
      ensures Headers[2 + 2 * i] == Column(Quarters[i], Volume) && Headers[3 + 2 * i] == Column(Quarters[i], Value)
    {
      if i == 0 {
        assert Column(Q3FY24, Volume) == "Q3_FY24_Volume" && Column(Q3FY24, Value) == "Q3_FY24_Value";
      } else if i == 1 {
        assert Column(Q4FY24, Volume) == "Q4_FY24_Volume" && Column(Q4FY24, Value) == "Q4_FY24_Value";
      } else if i == 2 {
        assert Column(Q1FY25, Volume) == "Q1_FY25_Volume" && Column(Q1FY25, Value) == "Q1_FY25_Value";
      } else if i == 3 {
        assert Column(Q2FY25, Volume) == "Q2_FY25_Volume" && Column(Q2FY25, Value) == "Q2_FY25_Value";
      } else {
        assert Column(Q3FY25, Volume) == "Q3_FY25_Volume" && Column(Q3FY25, Value) == "Q3_FY25_Value";
      }
    }
  }

  /** `row[header]`: the classification columns, or a cell (absent when
      the record has no such column). */
  function FieldOf(row: Row, header: string): Option<string>
  {
    if header == "Transaction Type" then Some(row.txType)
    else if header == "Sub_type" then Some(row.subType)
    else Cell(row, header)
  }

  /** The text a value becomes once joined: `join` writes an undefined
      value as the empty string. */
  function Text(v: Option<string>): string
  {
    match v
    case None => ""
    case Some(s) => s
  }

  /** The field as exported: quoted only when it is a string holding a
      comma, otherwise written as it is. */
  function Encode(v: Option<string>): string
  {
    match v
    case None => ""
    case Some(s) => if ',' in s then ['"'] + s + ['"'] else s
  }

  /** `parts.join(sep)`. */
  function Join(parts: seq<string>, sep: char): string
  {
    if parts == [] then ""
    else if |parts| == 1 then parts[0]
    else parts[0] + [sep] + Join(parts[1..], sep)
  }

  function EncodedFields(row: Row): (r: seq<string>)
    ensures |r| == |Headers| && forall i :: 0 <= i < |Headers| ==> r[i] == Encode(FieldOf(row, Headers[i]))
  {
    seq(|Headers|, i requires 0 <= i < |Headers| => Encode(FieldOf(row, Headers[i])))
  }

  /** One data line. */
  function CsvLine(row: Row): string
  {
    Join(EncodedFields(row), ',')
  }

  function HeaderLine(): string
  {
    Join(Headers, ',')
  }

  function CsvLines(rows: seq<Row>): (r: seq<string>)
    ensures |r| == |rows| && forall i :: 0 <= i < |rows| ==> r[i] == CsvLine(rows[i])
  {
    seq(|rows|, i requires 0 <= i < |rows| => CsvLine(rows[i]))
  }

  /** The exported text. */
  function Csv(rows: seq<Row>): string
  {
    Join([HeaderLine()] + CsvLines(rows), '\n')
  }

  // ---------------------------------------------------------------------
  // Reading the text back

  /** `s.split(sep)`. */
  function Split(s: string, sep: char): (r: seq<string>)
    ensures |r| >= 1
    decreases |s|
  {
    if s == [] then [""]
    else
      var rest := Split(s[1..], sep);
      if s[0] == sep then [""] + rest else [[s[0]] + rest[0]] + rest[1..]
  }

  lemma {:induction false} SplitWithoutSeparator(a: string, sep: char)
    requires sep !in a
    ensures Split(a, sep) == [a]
  {
    if a != [] {
      SplitWithoutSeparator(a[1..], sep);
      assert [a[0]] + a[1..] == a;
    }
  }

  lemma {:induction false} SplitAtSeparator(a: string, sep: char, b: string)
    requires sep !in a
    ensures Split(a + [sep] + b, sep) == [a] + Split(b, sep)
  {
    if a == [] {
      assert a + [sep] + b == [sep] + b;
      assert ([sep] + b)[1..] == b;
    } else {
      assert (a + [sep] + b)[1..] == a[1..] + [sep] + b;
      SplitAtSeparator(a[1..], sep, b);
      assert [a[0]] + a[1..] == a;
    }
  }

  /** Splitting undoes joining when no part holds the separator. */
  lemma {:induction false} SplitJoin(parts: seq<string>, sep: char)
    requires |parts| >= 1
    requires forall p :: p in parts ==> sep !in p
    ensures Split(Join(parts, sep), sep) == parts
  {
    if |parts| == 1 {
      SplitWithoutSeparator(parts[0], sep);
    } else {
      SplitJoin(parts[1..], sep);
      SplitAtSeparator(parts[0], sep, Join(parts[1..], sep));
      assert [parts[0]] + parts[1..] == parts;
    }
  }

  lemma {:induction false} JoinAvoids(parts: seq<string>, sep: char, c: char)
    requires c != sep && forall p :: p in parts ==> c !in p
    ensures c !in Join(parts, sep)
  {
    if |parts| > 1 {
      JoinAvoids(parts[1..], sep, c);
    }
  }

  /** The header line is the first line of every export, even of an empty
      selection, which exports the header line alone. */
  lemma HeaderFirst(rows: seq<Row>)
    ensures |HeaderLine()| <= |Csv(rows)| && Csv(rows)[..|HeaderLine()|] == HeaderLine()
    ensures rows == [] ==> Csv(rows) == HeaderLine()
  {
    var lines := [HeaderLine()] + CsvLines(rows);
    if |lines| > 1 {
      assert Csv(rows) == HeaderLine() + ['\n'] + Join(lines[1..], '\n');
    }
  }

  predicate NoLineBreaks(row: Row)
  {
    forall i :: 0 <= i < |Headers| ==> '\n' !in Text(FieldOf(row, Headers[i]))
  }

  lemma EncodeAvoids(v: Option<string>, c: char)
    requires c != '"' && c !in Text(v)
    ensures c !in Encode(v)
  {
  }

  lemma HeaderLineUnbroken()
    ensures '\n' !in HeaderLine()
  {
    forall h | h in Headers
      ensures '\n' !in h
    {
    }
    JoinAvoids(Headers, ',', '\n');
  }

  lemma LineUnbroken(row: Row)
    requires NoLineBreaks(row)
    ensures '\n' !in CsvLine(row)
  {
    forall f | f in EncodedFields(row)
      ensures '\n' !in f
    {
      var i :| 0 <= i < |Headers| && EncodedFields(row)[i] == f;
      EncodeAvoids(FieldOf(row, Headers[i]), '\n');
    }
    JoinAvoids(EncodedFields(row), ',', '\n');
  }

  /** When no field holds a line break, the export has one line for the
      header and then exactly one line per row, in order. */
  lemma CsvLayout(rows: seq<Row>)
    requires forall row :: row in rows ==> NoLineBreaks(row)
    ensures Split(Csv(rows), '\n') == [HeaderLine()] + CsvLines(rows)
    ensures |Split(Csv(rows), '\n')| == 1 + |rows|
  {
    var lines := [HeaderLine()] + CsvLines(rows);
    HeaderLineUnbroken();
    forall k | 0 <= k < |rows|
      ensures '\n' !in CsvLines(rows)[k]
    {
      LineUnbroken(rows[k]);
    }
    assert forall line :: line in lines ==> '\n' !in line;
    SplitJoin(lines, '\n');
  }

  /** The text of `s` before the first `c`, or all of it. */
  function UpTo(s: string, c: char): (r: string)
    ensures |r| <= |s| && r == s[..|r|] && c !in r
    ensures |r| < |s| ==> s[|r|] == c
  {
    if s == [] || s[0] == c then [] else [s[0]] + UpTo(s[1..], c)
  }

  lemma {:induction false} UpToSeparator(a: string, c: char, b: string)
    requires c !in a
    ensures UpTo(a + [c] + b, c) == a
  {
    if a != [] {
      assert (a + [c] + b)[1..] == a[1..] + [c] + b;
      UpToSeparator(a[1..], c, b);
      assert [a[0]] + a[1..] == a;
    }
  }

  lemma {:induction false} UpToAll(a: string, c: char)
    requires c !in a
    ensures UpTo(a, c) == a
  {
    if a != [] {
      UpToAll(a[1..], c);
      assert [a[0]] + a[1..] == a;
    }
  }

  /** A reference reader for one line of comma-separated fields: a field
      starting with a double quote runs to the next double quote (and
      anything up to the next comma after it is dropped); any other field
      runs to the next comma. */
  function DecodeLine(s: string): (r: seq<string>)
    ensures |r| >= 1
    decreases |s|
  {
    if s != [] && s[0] == '"' then
      var body := s[1..];
      var f := UpTo(body, '"');
      var after := if |f| == |body| then [] else body[|f| + 1..];
      var junk := UpTo(after, ',');
      if |junk| == |after| then [f] else [f] + DecodeLine(after[|junk| + 1..])
    else
      var f := UpTo(s, ',');
      if |f| == |s| then [f] else [f] + DecodeLine(s[|f| + 1..])
  }

  /** A single encoded field reads back as its text ... */
  lemma DecodeOne(v: Option<string>)
    requires '"' !in Text(v)
    ensures DecodeLine(Encode(v)) == [Text(v)]
  {
    var t := Text(v);
    if v.Some? && ',' in t {
      var s := Encode(v);
      assert s[1..] == t + ['"'] + [];
      UpToSeparator(t, '"', []);
    } else {
      UpToAll(t, ',');
    }
  }

  /** A quoted field runs to its closing quote, which the comma follows. */
  lemma DecodeQuoted(t: string, rest: string)
    requires '"' !in t
    ensures DecodeLine(['"'] + t + ['"'] + [','] + rest) == [t] + DecodeLine(rest)
  {
    var s := ['"'] + t + ['"'] + [','] + rest;
    assert s[1..] == t + ['"'] + ([','] + rest);
    UpToSeparator(t, '"', [','] + rest);
    assert s[1..][|t| + 1..] == [','] + rest;
    assert UpTo([','] + rest, ',') == [];
    assert ([','] + rest)[1..] == rest;
  }

  /** A plain field runs to the first comma. */
  lemma DecodePlain(t: string, rest: string)
    requires ',' !in t && (t == [] || t[0] != '"')
    ensures DecodeLine(t + [','] + rest) == [t] + DecodeLine(rest)
  {
    var s := t + [','] + rest;
    UpToSeparator(t, ',', rest);
    assert s[|t| + 1..] == rest;
  }

  /** ... and an encoded field followed by a comma ends at that comma. */
  lemma DecodeFirst(v: Option<string>, rest: string)
    requires '"' !in Text(v)
    ensures DecodeLine(Encode(v) + [','] + rest) == [Text(v)] + DecodeLine(rest)
  {
    var t := Text(v);
    if v.Some? && ',' in t {
      DecodeQuoted(t, rest);
    } else {
      assert t == [] || t[0] in t;
      DecodePlain(t, rest);
    }
  }

  lemma {:induction false} DecodeJoin(vs: seq<Option<string>>, encoded: seq<string>)
    requires |vs| >= 1 && |encoded| == |vs|
    requires forall i :: 0 <= i < |vs| ==> encoded[i] == Encode(vs[i]) && '"' !in Text(vs[i])
    ensures |DecodeLine(Join(encoded, ','))| == |vs|
    ensures forall i :: 0 <= i < |vs| ==> DecodeLine(Join(encoded, ','))[i] == Text(vs[i])
  {
    if |vs| == 1 {
      DecodeOne(vs[0]);
    } else {
      DecodeJoin(vs[1..], encoded[1..]);
      DecodeFirst(vs[0], Join(encoded[1..], ','));
    }
  }

  /** Every line reads back, field by field, as the row's values in header
      order, provided no value holds a double quote: the minimal quoting
      is enough for values with commas. */
  lemma LineRoundTrip(row: Row)
    requires forall i :: 0 <= i < |Headers| ==> '"' !in Text(FieldOf(row, Headers[i]))
    ensures |DecodeLine(CsvLine(row))| == |Headers|
    ensures forall i :: 0 <= i < |Headers| ==> DecodeLine(CsvLine(row))[i] == Text(FieldOf(row, Headers[i]))
  {
    var vs := seq(|Headers|, i requires 0 <= i < |Headers| => FieldOf(row, Headers[i]));
    DecodeJoin(vs, EncodedFields(row));
  }

  /** Without escaping, a value holding both a double quote and a comma
      does not survive: `a",b` is written as `"a",b"`, which reads back as
      the two fields `a` and `b"`. */
  lemma QuoteBreaksField(s: string)
    requires s == "a\",b"
    ensures Encode(Some(s)) == "\"a\",b\""
    ensures DecodeLine(Encode(Some(s))) == ["a", "b\""]
  {
    assert ',' in s by { assert s[2] == ','; }
    var e := Encode(Some(s));
    assert e == "\"a\",b\"";
    assert e[1..] == "a\",b\"";
    assert UpTo("a\",b\"", '"') == "a" by {
      UpToSeparator("a", '"', ",b\"");
      assert "a" + ['"'] + ",b\"" == "a\",b\"";
    }
    assert e[1..][2..] == ",b\"";
    assert UpTo(",b\"", ',') == "";
    assert ",b\""[1..] == "b\"";
    assert DecodeLine("b\"") == ["b\""] by {
      UpToAll("b\"", ',');
    }
  }
}
