/**
 * The diary's ISO date strings: `today()` renders the clock's calendar date as
 * `YYYY-MM-DD`, and `formatDate` splits such a string on `-` and turns each
 * part back into a number before handing it to the locale formatter.
 */
module IsoDates {
  import opened Seqs

  /** The reading of `new Date()` that `today()` uses: `getFullYear()`, the zero-based `getMonth()` and `getDate()`. */
  datatype Clock = Clock(fullYear: nat, month: nat, date: nat)

  /** The three numbers `formatDate` destructures; `None` stands for `NaN`. */
  datatype DateParts = DateParts(year: Option<nat>, month: Option<nat>, day: Option<nat>)

  predicate IsDigit(c: char) {
    '0' <= c <= '9'
  }

  predicate AllDigits(s: string) {
    forall i :: 0 <= i < |s| ==> IsDigit(s[i])
  }

  function DigitChar(d: nat): (c: char)
    requires d < 10
    ensures IsDigit(c)
  {
    ('0' as int + d) as char
  }

  /** `String(n)` for a non-negative integer: its decimal digits without leading zeros. */
  function DecimalString(n: nat): (r: string)
    ensures |r| >= 1 && AllDigits(r)
    ensures r[0] != '0' || n == 0
    decreases n
  {
    if n < 10 then [DigitChar(n)]
    else
      var high := DecimalString(n / 10);
      assert (high + [DigitChar(n % 10)])[0] == high[0];
      high + [DigitChar(n % 10)]
  }

  /** `s.padStart(width, [fill])`: prefix copies of `fill` until `s` is `width` long. */
  function PadStart(s: string, width: nat, fill: char): (r: string)
    ensures |r| == if |s| >= width then |s| else width
    decreases width
  {
    if |s| >= width then s else [fill] + PadStart(s, width - 1, fill)
  }

  /** `padStart` returns `s` itself when it is long enough, and otherwise `s` behind just enough copies of `fill`. */
  lemma {:induction false} PadStartContents(s: string, width: nat, fill: char)
    ensures |s| >= width ==> PadStart(s, width, fill) == s
    ensures |s| < width ==> PadStart(s, width, fill) == seq(width - |s|, _ => fill) + s
    decreases width
  {
    if |s| < width {
      PadStartContents(s, width - 1, fill);
      var k := width - |s|;
      assert seq(k, _ => fill) == [fill] + seq(k - 1, _ => fill);
      if |s| == width - 1 {
        assert seq(k - 1, _ => fill) + s == s;
      }
    }
  }

  /** `today()`: the year, the one-based month and the day, joined by `-`, month and day zero-padded to two digits. */
  function Today(c: Clock): string {
    DecimalString(c.fullYear) + "-" + PadStart(DecimalString(c.month + 1), 2, '0')
      + "-" + PadStart(DecimalString(c.date), 2, '0')
  }

  /** The value of a string of decimal digits, read left to right. */
  function DigitsValue(s: string): nat
    requires AllDigits(s)
    decreases |s|
  {
    if s == [] then 0
    else DigitsValue(s[..|s| - 1]) * 10 + (s[|s| - 1] as int - '0' as int)
  }

  /**
   * `Number(s)` on strings of decimal digits (the empty string converts to 0);
   * every other string converts to `NaN`, written `None`.
   */
  function Number(s: string): Option<nat> {
    if AllDigits(s) then Some(DigitsValue(s)) else None
  }

  /** `s.split(sep)`: the pieces between occurrences of `sep`; always at least one piece. */
  function Split(s: string, sep: char): (r: seq<string>)
    ensures |r| >= 1
    decreases |s|
  {
    if s == [] then [""]
    else
      var rest := Split(s[1..], sep);
      if s[0] == sep then [""] + rest else [[s[0]] + rest[0]] + rest[1..]
  }

  /** `parts[i]` converted with `Number`; a missing part is `undefined`, which `new Date` reads as `NaN`. */
  function NumberAt(parts: seq<string>, i: nat): Option<nat> {
    if i < |parts| then Number(parts[i]) else None
  }

  /** The three numbers `formatDate` reads off a date string: its first three `-`-separated pieces, each converted with `Number`. */
  function SplitDate(dateStr: string): DateParts {
    var parts := Split(dateStr, '-');
    DateParts(NumberAt(parts, 0), NumberAt(parts, 1), NumberAt(parts, 2))
  }

  lemma {:induction false} DecimalStringValue(n: nat)
    ensures DigitsValue(DecimalString(n)) == n
    decreases n
  {
    if n >= 10 {
      DecimalStringValue(n / 10);
      var s := DecimalString(n);
      assert s[..|s| - 1] == DecimalString(n / 10);
    }
  }

  /** A leading zero does not change the value of a digit string. */
  lemma {:induction false} LeadingZeroValue(s: string)
    requires AllDigits(s)
    ensures AllDigits(['0'] + s) && DigitsValue(['0'] + s) == DigitsValue(s)
    decreases |s|
  {
    if s != [] {
      var z := ['0'] + s;
      assert z[..|z| - 1] == ['0'] + s[..|s| - 1];
      LeadingZeroValue(s[..|s| - 1]);
    }
  }

  /** Padding a digit string with zeros keeps it a digit string of the same value. */
  lemma {:induction false} ZeroPaddedValue(s: string, width: nat)
    requires AllDigits(s)
    ensures AllDigits(PadStart(s, width, '0'))
    ensures DigitsValue(PadStart(s, width, '0')) == DigitsValue(s)
    decreases width
  {
    if |s| < width {
      var q := PadStart(s, width - 1, '0');
      ZeroPaddedValue(s, width - 1);
      LeadingZeroValue(q);
    }
  }

  lemma {:induction false} SplitWithoutSeparator(s: string, sep: char)
    requires sep !in s
    ensures Split(s, sep) == [s]
    decreases |s|
  {
    if s != [] {
      SplitWithoutSeparator(s[1..], sep);
      assert s == [s[0]] + s[1..];
    }
  }

  /** A first piece free of `sep` is split off exactly at the separator that follows it. */
  lemma {:induction false} SplitAtSeparator(a: string, sep: char, b: string)
    requires sep !in a
    ensures Split(a + [sep] + b, sep) == [a] + Split(b, sep)
    decreases |a|
  {
    var s := a + [sep] + b;
    if a == [] {
      assert s[1..] == b;
    } else {
      assert s[1..] == a[1..] + [sep] + b;
      SplitAtSeparator(a[1..], sep, b);
      assert a == [a[0]] + a[1..];
    }
  }

  /** Three digit strings joined by `-` split back into themselves. */
  lemma SplitThreeFields(y: string, m: string, d: string)
    requires AllDigits(y) && AllDigits(m) && AllDigits(d)
    ensures SplitDate(y + "-" + m + "-" + d) == DateParts(Number(y), Number(m), Number(d))
  {
    assert '-' !in y && '-' !in m && '-' !in d;
    assert y + "-" + m + "-" + d == y + ['-'] + (m + ['-'] + d);
    SplitAtSeparator(y, '-', m + ['-'] + d);
    SplitAtSeparator(m, '-', d);
    SplitWithoutSeparator(d, '-');
  }

  /**
   * Round trip: splitting what `today()` builds and converting the parts as
   * `formatDate` does gives back the year, the one-based month and the day.
   */
  lemma TodayRoundTrip(c: Clock)
    ensures SplitDate(Today(c)) == DateParts(Some(c.fullYear), Some(c.month + 1), Some(c.date))
  {
    var y := DecimalString(c.fullYear);
    var m := DecimalString(c.month + 1);
    var d := DecimalString(c.date);
    DecimalStringValue(c.fullYear);
    DecimalStringValue(c.month + 1);
    DecimalStringValue(c.date);
    ZeroPaddedValue(m, 2);
    ZeroPaddedValue(d, 2);
    SplitThreeFields(y, PadStart(m, 2, '0'), PadStart(d, 2, '0'));
  }

  lemma FourDigitYear(n: nat)
    requires 1000 <= n <= 9999
    ensures |DecimalString(n)| == 4
  {
    var a, b, c := n / 10, n / 100, n / 1000;
    assert a / 10 == b && b / 10 == c && 1 <= c <= 9 && 10 <= b;
    assert |DecimalString(b)| == |DecimalString(c)| + 1 == 2;
    assert |DecimalString(a)| == |DecimalString(b)| + 1;
    assert |DecimalString(n)| == |DecimalString(a)| + 1;
  }

  lemma TwoDigitField(n: nat)
    requires 1 <= n <= 99
    ensures |PadStart(DecimalString(n), 2, '0')| == 2
  {
    if n >= 10 {
      assert 1 <= n / 10 < 10;
      assert |DecimalString(n / 10)| == 1;
      assert |DecimalString(n)| == 2;
    }
  }

  /**
   * For a four-digit year, a month index 0..11 and a day 1..31 the string
   * `today()` builds is ten characters long, digits with a `-` at positions 4 and 7.
   */
  lemma TodayShape(c: Clock)
    requires 1000 <= c.fullYear <= 9999 && c.month <= 11 && 1 <= c.date <= 31
    ensures |Today(c)| == 10 && Today(c)[4] == '-' && Today(c)[7] == '-'
    ensures forall i :: 0 <= i < 10 && i != 4 && i != 7 ==> IsDigit(Today(c)[i])
  {
    FourDigitYear(c.fullYear);
    TwoDigitField(c.month + 1);
    TwoDigitField(c.date);
    ZeroPaddedValue(DecimalString(c.month + 1), 2);
    ZeroPaddedValue(DecimalString(c.date), 2);
  }
}
