/** The numeric normaliser `cleanNumber` (script.js:491-494): delete every
    white-space character, comma and no-break space, then read the longest
    numeric prefix the way `parseFloat` does, and turn a failed parse into 0.
    Numbers are exact reals here; the model has no NaN, so "never NaN" holds
    by construction and the interesting facts are which text gives which value. */
module Numbers {
  import opened Seqs

  /** The characters of the regular-expression class `\s`: white space and
      line terminators as ECMAScript defines them. */
  predicate IsJsSpace(c: char)
  {
    || c == '\t' || c == '\n' || c == '\U{B}' || c == '\U{C}' || c == '\r' || c == ' '
    || c == '\U{A0}' || c == '\U{1680}' || ('\U{2000}' <= c <= '\U{200A}')
    || c == '\U{2028}' || c == '\U{2029}' || c == '\U{202F}' || c == '\U{205F}'
    || c == '\U{3000}' || c == '\U{FEFF}'
  }

  /** A character that `/[\s, ]+/g` deletes. */
  predicate IsSeparator(c: char)
  {
    IsJsSpace(c) || c == ',' || c == '\U{A0}'
  }

  predicate IsKept(c: char)
  {
    !IsSeparator(c)
  }

  /** `val.replace(/[\s, ]+/g, '')`: every separator goes and
      every other character stays, in its order. */
  function Strip(s: string): (r: string)
    ensures forall i :: 0 <= i < |r| ==> !IsSeparator(r[i])
    ensures IsSubsequence(r, s)
    ensures forall c :: multiset(r)[c] == if IsSeparator(c) then 0 else multiset(s)[c]
  {
    var r := Filter(s, IsKept);
    FilterSpec(s, IsKept);
    assert forall i :: 0 <= i < |r| ==> r[i] in r;
    r
  }

  function TrimStart(s: string): string
  {
    if s != [] && IsJsSpace(s[0]) then TrimStart(s[1..]) else s
  }

  function TrimEnd(s: string): string
  {
    if s != [] && IsJsSpace(s[|s| - 1]) then TrimEnd(s[..|s| - 1]) else s
  }

  /** `String.prototype.trim`. */
  function Trim(s: string): string
  {
    TrimEnd(TrimStart(s))
  }

  predicate IsDigit(c: char)
  {
    '0' <= c <= '9'
  }

  predicate AllDigits(s: string)
  {
    forall i :: 0 <= i < |s| ==> IsDigit(s[i])
  }

  type Digits = s: string | AllDigits(s)

  /** Length of the longest run of decimal digits at the start of `s`. */
  function DigitRun(s: string): (n: nat)
    ensures n <= |s| && AllDigits(s[..n])
    ensures n < |s| ==> !IsDigit(s[n])
  {
    if s != [] && IsDigit(s[0]) then
      var n := 1 + DigitRun(s[1..]);
      assert s[..n] == [s[0]] + s[1..][..n - 1];
      n
    else 0
  }

  function DigitsValue(d: Digits): nat
  {
    if d == [] then 0 else 10 * DigitsValue(d[..|d| - 1]) + (d[|d| - 1] as int - '0' as int)
  }

  function Pow10(n: nat): (r: nat)
    ensures r >= 1
  {
    if n == 0 then 1 else 10 * Pow10(n - 1)
  }

  /** 10 raised to a possibly negative exponent. */
  function Scale(e: int): (r: real)
    ensures r > 0.0
  {
    if e >= 0 then Pow10(e) as real else 1.0 / Pow10(-e) as real
  }

  /** The parts of the longest prefix that `parseFloat` accepts:
      `[+-]? digits [. digits]? ([eE] [+-]? digits)?` with at least one
      digit in the mantissa. */
  datatype Numeral = Numeral(negative: bool, whole: Digits, fraction: Digits, exponent: int)

  function SignLength(t: string): (k: nat)
    ensures k <= |t|
  {
    if |t| > 0 && (t[0] == '+' || t[0] == '-') then 1 else 0
  }

  /** The exponent written at the start of `u`, or 0 when `u` does not start
      with a complete exponent part (`"e"`, `"e+"` are ignored by `parseFloat`). */
  function ExponentOf(u: string): int
  {
    if |u| > 0 && (u[0] == 'e' || u[0] == 'E') then
      var v := u[1..];
      var k := SignLength(v);
      var d := DigitRun(v[k..]);
      if d == 0 then 0
      else
        var e: int := DigitsValue(v[k..][..d]);
        if k == 1 && v[0] == '-' then -e else e
    else 0
  }

  /** The digits before and after an optional decimal point at the start of
      `body`, and how many characters they take up. */
  datatype Mantissa = Mantissa(whole: Digits, fraction: Digits, length: nat)

  function ScanMantissa(body: string): (m: Mantissa)
    ensures m.length <= |body|
  {
    var w := DigitRun(body);
    if w < |body| && body[w] == '.' then
      var f := DigitRun(body[w + 1..]);
      Mantissa(body[..w], body[w + 1..][..f], w + 1 + f)
    else
      Mantissa(body[..w], "", w)
  }

  /** Splits the numeric prefix of `t` into its parts, or fails when `t`
      has no digit where a number must start. */
  function Scan(t: string): Option<Numeral>
  {
    var k := SignLength(t);
    var m := ScanMantissa(t[k..]);
    if |m.whole| + |m.fraction| == 0 then None
    else Some(Numeral(k == 1 && t[0] == '-', m.whole, m.fraction, ExponentOf(t[k..][m.length..])))
  }

  function NumeralValue(n: Numeral): real
  {
    var magnitude := (DigitsValue(n.whole + n.fraction) as real / Pow10(|n.fraction|) as real) * Scale(n.exponent);
    if n.negative then -magnitude else magnitude
  }

  /** `parseFloat` on text without leading white space; `None` is NaN. */
  function ParseFloat(t: string): Option<real>
  {
    match Scan(t)
    case None => None
    case Some(n) => Some(NumeralValue(n))
  }

  /** `cleanNumber(val)` for a string `val`: `parseFloat(...) || 0`. */
  function CleanNumber(s: string): real
  {
    match ParseFloat(Trim(Strip(s)))
    case None => 0.0
    case Some(v) => v
  }

  /** `cleanNumber` of a cell that may be absent: `parseFloat(undefined)` is
      NaN, so an absent cell reads as 0. */
  function CleanCell(c: Option<string>): real
  {
    match c
    case None => 0.0
    case Some(s) => CleanNumber(s)
  }

  // ---------------------------------------------------------------------
  // Properties

  lemma {:induction false} StripAppend(a: string, b: string)
    ensures Strip(a + b) == Strip(a) + Strip(b)
  {
    FilterAppend(a, b, IsKept);
  }

  /** The `.trim()` after the replacement never changes anything: every
      character `trim` would remove has already been deleted. */
  lemma TrimAfterStrip(s: string)
    ensures Trim(Strip(s)) == Strip(s)
  {
    var t := Strip(s);
    assert TrimStart(t) == t;
    assert TrimEnd(t) == t;
  }

  /** Separators may be inserted anywhere without changing the value:
      "1,234" and "1 234" read like "1234". */
  lemma {:induction false} SeparatorInsensitive(a: string, c: char, b: string)
    requires IsSeparator(c)
    ensures CleanNumber(a + [c] + b) == CleanNumber(a + b)
  {
    calc {
      Strip(a + [c] + b);
      { StripAppend(a + [c], b); }
      Strip(a + [c]) + Strip(b);
      { StripAppend(a, [c]); assert Strip([c]) == []; }
      Strip(a) + Strip(b);
      { StripAppend(a, b); }
      Strip(a + b);
    }
  }

  /** `parseFloat` fails (NaN, so `cleanNumber` gives 0) exactly when no
      digit follows the optional sign, directly or after a decimal point. */
  predicate StartsNumeric(t: string)
  {
    var k := SignLength(t);
    (k < |t| && IsDigit(t[k])) || (k + 1 < |t| && t[k] == '.' && IsDigit(t[k + 1]))
  }

  lemma ParseFloatFails(t: string)
    ensures ParseFloat(t) == None <==> !StartsNumeric(t)
  {
    var body := t[SignLength(t)..];
    if |body| > 0 && IsDigit(body[0]) {
      assert DigitRun(body) > 0;
    } else if |body| > 1 && body[0] == '.' && IsDigit(body[1]) {
      assert DigitRun(body) == 0;
      assert DigitRun(body[1..]) > 0;
    }
  }

  /** Appending a digit to `a` and `b` scales `a`'s share by ten. */
  lemma ShiftDigit(va: int, p: int, vb: int, last: int)
    ensures 10 * (va * p + vb) + last == va * (10 * p) + (10 * vb + last)
  {
    assert 10 * (va * p) == va * (10 * p);
  }

  lemma {:induction false} DigitsValueAppend(a: Digits, b: Digits)
    ensures AllDigits(a + b)
    ensures DigitsValue(a + b) == DigitsValue(a) * Pow10(|b|) + DigitsValue(b)
  {
    if b != [] {
      var b' := b[..|b| - 1];
      var last := b[|b| - 1] as int - '0' as int;
      assert (a + b)[..|a + b| - 1] == a + b';
      assert (a + b)[|a + b| - 1] == b[|b| - 1];
      DigitsValueAppend(a, b');
      ShiftDigit(DigitsValue(a), Pow10(|b'|), DigitsValue(b'), last);
    } else {
      assert a + b == a;
    }
  }

  lemma {:induction false} DigitRunOf(d: Digits, g: string)
    requires g == [] || !IsDigit(g[0])
    ensures DigitRun(d + g) == |d|
  {
    if d != [] {
      assert (d + g)[1..] == d[1..] + g;
      DigitRunOf(d[1..], g);
    } else {
      assert d + g == g;
    }
  }

  lemma ScanMantissaDecimal(whole: Digits, fraction: Digits, g: string)
    requires g == [] || !IsDigit(g[0])
    ensures ScanMantissa(whole + "." + fraction + g) == Mantissa(whole, fraction, |whole| + 1 + |fraction|)
  {
    var body := whole + "." + fraction + g;
    assert body == whole + ("." + fraction + g);
    DigitRunOf(whole, "." + fraction + g);
    assert body[..|whole|] == whole;
    assert body[|whole| + 1..] == fraction + g;
    DigitRunOf(fraction, g);
    assert (fraction + g)[..|fraction|] == fraction;
  }

  lemma ScanMantissaInteger(whole: Digits, g: string)
    requires g == [] || !(IsDigit(g[0]) || g[0] == '.')
    ensures ScanMantissa(whole + g) == Mantissa(whole, "", |whole|)
  {
    DigitRunOf(whole, g);
    assert (whole + g)[..|whole|] == whole;
  }

  lemma DivideSum(a: real, b: real, p: real)
    requires p > 0.0
    ensures (a * p + b) / p == a + b / p
  {
    assert (a + b / p) * p == a * p + b;
  }

  lemma ProductAsReal(a: nat, p: nat)
    ensures (a * p) as real == a as real * p as real
  {
  }

  /** What the digits `whole.fraction` spell. */
  function DecimalReading(whole: Digits, fraction: Digits): real
  {
    DigitsValue(whole) as real + DigitsValue(fraction) as real / Pow10(|fraction|) as real
  }

  /** The value of an unsigned numeral without exponent. */
  lemma {:induction false} DecimalValue(whole: Digits, fraction: Digits)
    ensures NumeralValue(Numeral(false, whole, fraction, 0)) == DecimalReading(whole, fraction)
  {
    DigitsValueAppend(whole, fraction);
    var m := DigitsValue(whole + fraction);
    var p := Pow10(|fraction|);
    var a, b := DigitsValue(whole), DigitsValue(fraction);
    assert NumeralValue(Numeral(false, whole, fraction, 0)) == (m as real / p as real) * Scale(0);
    assert Scale(0) == 1.0;
    MantissaValue(m, a, b, p);
  }

  lemma MantissaValue(m: nat, a: nat, b: nat, p: nat)
    requires p >= 1 && m == a * p + b
    ensures (m as real / p as real) * 1.0 == a as real + b as real / p as real
  {
    ProductAsReal(a, p);
    DivideSum(a as real, b as real, p as real);
  }

  /** `g` would extend a numeral before it: it starts with a digit, or with
      an exponent mark followed by an optionally signed digit. Any other
      text ends the numeral, even one starting with `e` ("12.5eur"). */
  predicate ContinuesNumeral(g: string)
  {
    g != [] && (IsDigit(g[0]) || ((g[0] == 'e' || g[0] == 'E') && DigitRun(g[1..][SignLength(g[1..])..]) > 0))
  }

  lemma NoExponent(g: string)
    requires !ContinuesNumeral(g)
    ensures ExponentOf(g) == 0
  {
  }

  /** Where the numeral comes from and what it is worth, for a decimal
      numeral followed by text that cannot continue it. */
  lemma ScanDecimal(whole: Digits, fraction: Digits, g: string)
    requires |whole| + |fraction| > 0
    requires !ContinuesNumeral(g)
    ensures Scan(whole + "." + fraction + g) == Some(Numeral(false, whole, fraction, 0))
    ensures NumeralValue(Numeral(false, whole, fraction, 0)) == DecimalReading(whole, fraction)
  {
    var t := whole + "." + fraction + g;
    assert SignLength(t) == 0 by {
      if |whole| > 0 { assert t[0] == whole[0]; } else { assert t[0] == '.'; }
    }
    assert t[0..] == t;
    ScanMantissaDecimal(whole, fraction, g);
    assert t[|whole| + 1 + |fraction|..] == g;
    NoExponent(g);
    DecimalValue(whole, fraction);
  }

  lemma ParseFloatOfScan(t: string, n: Numeral, x: real)
    requires Scan(t) == Some(n) && NumeralValue(n) == x
    ensures ParseFloat(t) == Some(x)
  {
  }

  /** A decimal numeral followed by text that cannot continue it reads as
      its value: trailing garbage is ignored ("12.5%" gives 12.5). */
  lemma DecimalPrefix(whole: Digits, fraction: Digits, g: string)
    requires |whole| + |fraction| > 0
    requires !ContinuesNumeral(g)
    ensures ParseFloat(whole + "." + fraction + g) == Some(DecimalReading(whole, fraction))
  {
    ScanDecimal(whole, fraction, g);
    ParseFloatOfScan(whole + "." + fraction + g, Numeral(false, whole, fraction, 0), DecimalReading(whole, fraction));
  }

  lemma ScanInteger(whole: Digits, g: string)
    requires |whole| > 0
    requires !ContinuesNumeral(g) && (g == [] || g[0] != '.')
    ensures Scan(whole + g) == Some(Numeral(false, whole, "", 0))
    ensures NumeralValue(Numeral(false, whole, "", 0)) == DecimalReading(whole, "")
  {
    var t := whole + g;
    assert t[0] == whole[0];
    assert t[0..] == t;
    ScanMantissaInteger(whole, g);
    assert t[|whole|..] == g;
    NoExponent(g);
    DecimalValue(whole, "");
  }

  lemma IntegerReading(whole: Digits)
    ensures DecimalReading(whole, "") == DigitsValue(whole) as real
  {
    assert DigitsValue("") == 0 && Pow10(0) == 1;
  }

  /** A run of digits followed by text that cannot continue a number reads
      as the integer it spells ("250 units" gives 250). */
  lemma IntegerPrefix(whole: Digits, g: string)
    requires |whole| > 0
    requires !ContinuesNumeral(g) && (g == [] || g[0] != '.')
    ensures ParseFloat(whole + g) == Some(DigitsValue(whole) as real)
  {
    ScanInteger(whole, g);
    IntegerReading(whole);
    ParseFloatOfScan(whole + g, Numeral(false, whole, "", 0), DigitsValue(whole) as real);
  }

  lemma ScanNegative(t: string)
    requires SignLength(t) == 0
    ensures Scan(t).Some? ==> !Scan(t).value.negative
    ensures Scan("-" + t) == match Scan(t) case None => None case Some(n) => Some(n.(negative := true))
  {
    var u := "-" + t;
    assert u[1..] == t;
    assert t[0..] == t;
    assert SignLength(u) == 1;
  }

  lemma NegatedValue(n: Numeral)
    ensures NumeralValue(n.(negative := true)) == -NumeralValue(n.(negative := false))
  {
  }

  /** A leading minus sign negates the value that follows it. */
  lemma NegativePrefix(t: string)
    requires SignLength(t) == 0
    ensures ParseFloat("-" + t) == match ParseFloat(t) case None => None case Some(v) => Some(-v)
  {
    ScanNegative(t);
    match Scan(t)
    case None =>
    case Some(n) =>
      NegatedValue(n);
      assert n.(negative := false) == n;
      ParseFloatOfScan("-" + t, n.(negative := true), -NumeralValue(n));
      ParseFloatOfScan(t, n, NumeralValue(n));
  }

  /** Digits and the decimal point are never deleted by the cleaning. */
  lemma NumeralTextUnstripped(whole: Digits, fraction: Digits)
    ensures Strip(whole + "." + fraction) == whole + "." + fraction
  {
    var t := whole + "." + fraction;
    forall c | c in t
      ensures IsKept(c)
    {
      assert IsDigit(c) || c == '.';
    }
    FilterAll(t, IsKept);
  }

  /** The cleaned text of a cell holding only digits, separators and at most
      one decimal point reads as the number those digits spell. */
  lemma CleanDecimal(s: string, whole: Digits, fraction: Digits)
    requires |whole| + |fraction| > 0
    requires Strip(s) == whole + "." + fraction
    ensures CleanNumber(s) == DecimalReading(whole, fraction)
  {
    TrimAfterStrip(s);
    DecimalPrefix(whole, fraction, "");
    assert whole + "." + fraction + "" == whole + "." + fraction;
  }

  lemma ExampleReading(whole: Digits, fraction: Digits)
    requires whole == "1234" && fraction == "50"
    ensures DecimalReading(whole, fraction) == 1234.5
  {
    assert DigitsValue(whole) == 1234 by {
      assert whole[..3] == "123" && "123"[..2] == "12" && "12"[..1] == "1" && "1"[..0] == "";
    }
    assert DigitsValue(fraction) == 50 by {
      assert fraction[..1] == "5" && "5"[..0] == "";
    }
    assert Pow10(|fraction|) == 100;
  }

  /** The example from the dashboard's data: "1,234.50" is 1234.5. The
      pieces of the text are parameters so that the verifier reasons about
      them symbolically instead of evaluating every function on the literal. */
  lemma ThousandsSeparatorExample(s: string, a: string, b: string, whole: Digits, fraction: Digits)
    requires s == "1,234.50" && a == "1" && b == "234.50" && whole == "1234" && fraction == "50"
    ensures CleanNumber(s) == 1234.5
  {
    assert s == a + [','] + b;
    assert a + b == whole + "." + fraction;
    SeparatorInsensitive(a, ',', b);
    NumeralTextUnstripped(whole, fraction);
    CleanDecimal(a + b, whole, fraction);
    ExampleReading(whole, fraction);
  }

  /** "eur" starts with an exponent mark but no exponent follows it. */
  lemma UnitIsNoExponent(g: string, u: string)
    requires g == "eur" && u == "ur"
    ensures !ContinuesNumeral(g)
  {
    assert g[1..] == u && SignLength(u) == 0 && u[0..] == u;
    assert !IsDigit(u[0]);
  }

  lemma UnitExampleReading(whole: Digits, fraction: Digits)
    requires whole == "12" && fraction == "5"
    ensures DecimalReading(whole, fraction) == 12.5
  {
    assert DigitsValue(whole) == 12 by {
      assert whole[..1] == "1" && "1"[..0] == "";
    }
    assert DigitsValue(fraction) == 5 by {
      assert fraction[..0] == "";
    }
    assert Pow10(|fraction|) == 10;
  }

  /** Text after the numeral that starts with `e` but is no exponent is
      ignored: "12.5eur" reads as 12.5. */
  lemma UnitSuffixExample(t: string, whole: Digits, fraction: Digits, g: string)
    requires t == "12.5eur" && whole == "12" && fraction == "5" && g == "eur"
    ensures ParseFloat(t) == Some(12.5)
  {
    assert t == whole + "." + fraction + g;
    UnitIsNoExponent(g, "ur");
    DecimalPrefix(whole, fraction, g);
    UnitExampleReading(whole, fraction);
  }

  /** Blank and non-numeric cells, and absent cells, read as 0. */
  lemma FailedParsesAreZero(s: string)
    requires !StartsNumeric(Strip(s))
    ensures CleanNumber(s) == 0.0 && CleanCell(Some(s)) == 0.0 && CleanCell(None) == 0.0
  {
    TrimAfterStrip(s);
    ParseFloatFails(Strip(s));
  }
}
