/**
 * The part of Go's `time` package the filmography ordering uses:
 * `time.Parse(time.DateOnly, s)` (layout "2006-01-02") and `Time.Before`
 * on the dates it yields. Parsed dates are midnight UTC, so a date is its
 * (year, month, day) triple and `Before` is the lexicographic order on it.
 */
module GoTime {
  import opened Wrappers
  import opened GoStrings

  datatype Date = Date(year: int, month: int, day: int)

  predicate IsLeap(year: int) {
    year % 4 == 0 && (year % 100 != 0 || year % 400 == 0)
  }

  /** The number of days of `month` (1..12) in `year`, as `time` checks a parsed day. */
  function DaysIn(month: int, year: int): (n: int)
    requires 1 <= month <= 12
    ensures 28 <= n <= 31
  {
    if month == 2 then (if IsLeap(year) then 29 else 28)
    else if month == 4 || month == 6 || month == 9 || month == 11 then 30
    else 31
  }

  /** A date the layout "2006-01-02" can denote: a four-digit year and an existing day. */
  predicate ValidDate(d: Date) {
    0 <= d.year <= 9999 && 1 <= d.month <= 12 && 1 <= d.day <= DaysIn(d.month, d.year)
  }

  /** `s` has the shape `DDDD-DD-DD`. */
  predicate HasDateShape(s: string) {
    |s| == 10 && s[4] == '-' && s[7] == '-'
    && IsDigit(s[0]) && IsDigit(s[1]) && IsDigit(s[2]) && IsDigit(s[3])
    && IsDigit(s[5]) && IsDigit(s[6]) && IsDigit(s[8]) && IsDigit(s[9])
  }

  /**
   * `time.Parse(time.DateOnly, s)`: `None` stands for the returned error
   * (wrong length, a non-digit, a missing dash, trailing text, a month outside
   * 1..12 or a day that the month does not have).
   */
  function ParseDate(s: string): (r: Option<Date>)
    ensures r.Some? ==> HasDateShape(s) && ValidDate(r.value)
  {
    if HasDateShape(s) then
      var d := Date(DecimalValue(s[..4]), DecimalValue(s[5..7]), DecimalValue(s[8..]));
      if ValidDate(d) then Some(d) else None
    else None
  }

  /** Two-digit, zero-padded numeral of `0 <= n < 100`. */
  function Pad2(n: int): string
    requires 0 <= n < 100
  {
    [DigitChar(n / 10), DigitChar(n % 10)]
  }

  /** Four-digit, zero-padded numeral of `0 <= n < 10000`. */
  function Pad4(n: int): string
    requires 0 <= n < 10000
  {
    [DigitChar(n / 10 / 10 / 10), DigitChar(n / 10 / 10 % 10), DigitChar(n / 10 % 10), DigitChar(n % 10)]
  }

  /** `t.Format(time.DateOnly)`: the text a valid date is written as. */
  function FormatDate(d: Date): string
    requires ValidDate(d)
  {
    Pad4(d.year) + "-" + Pad2(d.month) + "-" + Pad2(d.day)
  }

  lemma Pad2Value(n: int)
    requires 0 <= n < 100
    ensures DecimalValue(Pad2(n)) == n
  {
    var s := Pad2(n);
    assert s[..1][..0] == [];
    assert s[..1] == [DigitChar(n / 10)];
    assert DecimalValue(s[..1]) == n / 10;
  }

  lemma Pad4Value(n: int)
    requires 0 <= n < 10000
    ensures DecimalValue(Pad4(n)) == n
  {
    var s := Pad4(n);
    Value4(s);
    var q1 := n / 10;
    var q2 := q1 / 10;
    assert n == q1 * 10 + n % 10;
    assert q1 == q2 * 10 + q1 % 10;
    assert q2 == q2 / 10 * 10 + q2 % 10;
  }

  /** The value of a two-digit numeral, and the numeral written back from it. */
  lemma DigitsValue2(s: string)
    requires |s| == 2 && IsDigit(s[0]) && IsDigit(s[1])
    ensures DecimalValue(s) < 100 && Pad2(DecimalValue(s)) == s
  {
    assert s[..1][..0] == [];
    assert DecimalValue(s[..1]) == DigitValue(s[0]);
    assert DecimalValue(s) == DecimalValue(s[..1]) * 10 + DigitValue(s[1]);
  }

  /** The value of a four-digit numeral, and the numeral written back from it. */
  lemma DigitsValue4(s: string)
    requires |s| == 4 && IsDigit(s[0]) && IsDigit(s[1]) && IsDigit(s[2]) && IsDigit(s[3])
    ensures DecimalValue(s) < 10000 && Pad4(DecimalValue(s)) == s
  {
    var a, b, c, e := DigitValue(s[0]), DigitValue(s[1]), DigitValue(s[2]), DigitValue(s[3]);
    Value4(s);
    Pad4Digits(a, b, c, e);
  }

  lemma Value4(s: string)
    requires |s| == 4 && IsDigit(s[0]) && IsDigit(s[1]) && IsDigit(s[2]) && IsDigit(s[3])
    ensures DecimalValue(s)
            == ((DigitValue(s[0]) * 10 + DigitValue(s[1])) * 10 + DigitValue(s[2])) * 10 + DigitValue(s[3])
  {
    var a, b, c, e := DigitValue(s[0]), DigitValue(s[1]), DigitValue(s[2]), DigitValue(s[3]);
    assert s[..1][..0] == [];
    assert DecimalValue(s[..1]) == a;
    assert s[..2][..1] == s[..1];
    assert DecimalValue(s[..2]) == a * 10 + b;
    assert s[..3][..2] == s[..2];
    assert DecimalValue(s[..3]) == (a * 10 + b) * 10 + c;
    assert s[..3] == s[..|s| - 1];
  }

  lemma Pad4Digits(a: nat, b: nat, c: nat, e: nat)
    requires a < 10 && b < 10 && c < 10 && e < 10
    ensures Pad4(((a * 10 + b) * 10 + c) * 10 + e) == [DigitChar(a), DigitChar(b), DigitChar(c), DigitChar(e)]
  {
    var n := ((a * 10 + b) * 10 + c) * 10 + e;
    assert n / 10 == (a * 10 + b) * 10 + c;
    assert n / 10 / 10 == a * 10 + b;
    assert n / 10 / 10 / 10 == a;
  }

  /** Parsing the text of a valid date gives the date back. */
  lemma ParseFormat(d: Date)
    requires ValidDate(d)
    ensures ParseDate(FormatDate(d)) == Some(d)
  {
    var s := FormatDate(d);
    assert s[..4] == Pad4(d.year);
    assert s[5..7] == Pad2(d.month);
    assert s[8..] == Pad2(d.day);
    Pad4Value(d.year);
    Pad2Value(d.month);
    Pad2Value(d.day);
  }

  /** A string the parser accepts is exactly the text of the date it yields. */
  lemma FormatParse(s: string)
    requires ParseDate(s).Some?
    ensures FormatDate(ParseDate(s).value) == s
  {
    DigitsValue4(s[..4]);
    DigitsValue2(s[5..7]);
    DigitsValue2(s[8..]);
    var t := FormatDate(ParseDate(s).value);
    assert t[..4] == s[..4] && t[4] == s[4];
    assert t[5..7] == s[5..7] && t[7] == s[7];
    assert t[8..] == s[8..];
    assert t == t[..4] + [t[4]] + t[5..7] + [t[7]] + t[8..];
    assert s == s[..4] + [s[4]] + s[5..7] + [s[7]] + s[8..];
  }

  /**
   * `Time.Before` on two parsed dates: on valid dates, the order of their
   * numeric keys.
   */
  predicate Before(a: Date, b: Date): (r: bool)
    ensures ValidDate(a) && ValidDate(b) ==> (r <==> DateKey(a) < DateKey(b))
  {
    a.year < b.year
    || (a.year == b.year && a.month < b.month)
    || (a.year == b.year && a.month == b.month && a.day < b.day)
  }

  /** A single number that orders valid dates chronologically. */
  function DateKey(d: Date): int {
    d.year * 10000 + d.month * 100 + d.day
  }
}
