/**
 * The two pieces of Go's `strings` and `fmt` packages that the handlers rely on:
 * `strings.Split` with a one-character separator, and the `%d` verb of
 * `fmt.Sprintf`. `Join` is defined here as the inverse of `Split`, on the
 * non-empty field lists that `Split` returns.
 */
module GoStrings {

  /** `p` is a prefix of `s`. */
  predicate IsPrefix(p: string, s: string) {
    |p| <= |s| && s[..|p|] == p
  }

  /**
   * `strings.Split(s, string(sep))`: the fields of `s` between occurrences of `sep`.
   * There is always at least one field (`Split("", sep) == [""]`), no field holds
   * `sep`, and the first field is the longest prefix of `s` without `sep`.
   */
  function Split(s: string, sep: char): (fields: seq<string>)
    ensures |fields| >= 1
    ensures forall i :: 0 <= i < |fields| ==> sep !in fields[i]
    ensures IsPrefix(fields[0], s)
    ensures |fields[0]| == |s| || s[|fields[0]|] == sep
    decreases |s|
  {
    if s == [] then [[]]
    else
      var rest := Split(s[1..], sep);
      if s[0] == sep then [[]] + rest
      else [[s[0]] + rest[0]] + rest[1..]
  }

  /** The fields glued back together with `sep` between them: the inverse of `Split`. */
  function Join(fields: seq<string>, sep: char): string
    requires |fields| >= 1
    decreases |fields|
  {
    if |fields| == 1 then fields[0]
    else fields[0] + [sep] + Join(fields[1..], sep)
  }

  /** Joining the fields of a split gives back the original string. */
  lemma {:induction false} JoinSplit(s: string, sep: char)
    ensures Join(Split(s, sep), sep) == s
    decreases |s|
  {
    if s != [] {
      var rest := Split(s[1..], sep);
      JoinSplit(s[1..], sep);
      if s[0] == sep {
        assert Split(s, sep) == [[]] + rest;
        assert Join([[]] + rest, sep) == [] + [sep] + Join(rest, sep);
      } else if |rest| == 1 {
        assert Split(s, sep) == [[s[0]] + rest[0]];
        assert Join(rest, sep) == rest[0];
        assert [s[0]] + s[1..] == s;
      } else {
        var fields := [[s[0]] + rest[0]] + rest[1..];
        assert Split(s, sep) == fields;
        assert fields[1..] == rest[1..];
        assert Join(rest, sep) == rest[0] + [sep] + Join(rest[1..], sep);
        assert Join(fields, sep) == [s[0]] + rest[0] + [sep] + Join(rest[1..], sep);
        assert [s[0]] + s[1..] == s;
      }
    }
  }

  /** A string without the separator is a single field. */
  lemma {:induction false} SplitNoSeparator(w: string, sep: char)
    requires sep !in w
    ensures Split(w, sep) == [w]
    decreases |w|
  {
    if w != [] {
      assert sep !in w[1..] by {
        forall i | 0 <= i < |w[1..]| ensures w[1..][i] != sep {
          assert w[1..][i] == w[i + 1];
        }
      }
      SplitNoSeparator(w[1..], sep);
      assert [w[0]] + w[1..] == w;
    }
  }

  /** A separator-free head followed by a separator splits off as the first field. */
  lemma {:induction false} SplitHead(w: string, sep: char, t: string)
    requires sep !in w
    ensures Split(w + [sep] + t, sep) == [w] + Split(t, sep)
    decreases |w|
  {
    var s := w + [sep] + t;
    if w == [] {
      assert s[0] == sep && s[1..] == t;
    } else {
      assert s[0] == w[0];
      assert s[1..] == w[1..] + [sep] + t;
      assert sep !in w[1..] by {
        forall i | 0 <= i < |w[1..]| ensures w[1..][i] != sep {
          assert w[1..][i] == w[i + 1];
        }
      }
      SplitHead(w[1..], sep, t);
      assert [w[0]] + w[1..] == w;
    }
  }

  /** Splitting a join of separator-free fields gives back the fields. */
  lemma {:induction false} SplitJoin(fields: seq<string>, sep: char)
    requires |fields| >= 1
    requires forall i :: 0 <= i < |fields| ==> sep !in fields[i]
    ensures Split(Join(fields, sep), sep) == fields
    decreases |fields|
  {
    if |fields| == 1 {
      SplitNoSeparator(fields[0], sep);
    } else {
      SplitJoin(fields[1..], sep);
      SplitHead(fields[0], sep, Join(fields[1..], sep));
      assert [fields[0]] + fields[1..] == fields;
    }
  }

  /** `c` is a decimal digit. */
  predicate IsDigit(c: char) {
    '0' <= c <= '9'
  }

  /** The character of a decimal digit `0 <= d < 10`. */
  function DigitChar(d: nat): (c: char)
    requires d < 10
    ensures IsDigit(c)
  {
    ('0' as int + d) as char
  }

  /** The value of a decimal digit character. */
  function DigitValue(c: char): nat
    requires IsDigit(c)
  {
    c as int - '0' as int
  }

  /** `s` is a non-empty string of decimal digits. */
  predicate IsDecimal(s: string) {
    |s| >= 1 && forall i :: 0 <= i < |s| ==> IsDigit(s[i])
  }

  /** The number a string of decimal digits denotes, most significant digit first. */
  function DecimalValue(s: string): nat
    requires forall i :: 0 <= i < |s| ==> IsDigit(s[i])
    decreases |s|
  {
    if s == [] then 0
    else DecimalValue(s[..|s| - 1]) * 10 + DigitValue(s[|s| - 1])
  }

  /** `fmt.Sprintf("%d", n)` for `n >= 0`: the shortest decimal numeral of `n`. */
  function FormatNat(n: nat): (s: string)
    ensures IsDecimal(s)
    ensures s[0] == '0' ==> n == 0
    decreases n
  {
    if n < 10 then [DigitChar(n)]
    else FormatNat(n / 10) + [DigitChar(n % 10)]
  }

  /**
   * `fmt.Sprintf("%d", n)`: a minus sign exactly when `n < 0`, followed by a
   * decimal numeral whose value is `|n|`.
   */
  function FormatInt(n: int): (s: string)
    ensures |s| >= 1 && (s[0] == '-' <==> n < 0)
    ensures n < 0 ==> IsDecimal(s[1..]) && DecimalValue(s[1..]) == -n
    ensures n >= 0 ==> IsDecimal(s) && DecimalValue(s) == n
  {
    if n < 0 then
      FormatNatValue(-n);
      assert ("-" + FormatNat(-n))[1..] == FormatNat(-n);
      "-" + FormatNat(-n)
    else
      FormatNatValue(n);
      FormatNat(n)
  }

  /** Reading back the numeral `%d` prints gives the number. */
  lemma {:induction false} FormatNatValue(n: nat)
    ensures DecimalValue(FormatNat(n)) == n
    decreases n
  {
    var s := FormatNat(n);
    if n >= 10 {
      FormatNatValue(n / 10);
      assert s[..|s| - 1] == FormatNat(n / 10);
    }
  }

  /** `%d` prints distinct integers as distinct strings. */
  lemma FormatIntInjective(a: int, b: int)
    ensures FormatInt(a) == FormatInt(b) ==> a == b
  {
    if FormatInt(a) == FormatInt(b) {
      FormatNatValue(if a < 0 then -a else a);
      FormatNatValue(if b < 0 then -b else b);
      if a < 0 && b < 0 {
        assert FormatNat(-a) == FormatInt(a)[1..];
        assert FormatNat(-b) == FormatInt(b)[1..];
      }
    }
  }
}
