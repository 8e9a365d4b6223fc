/**
  The `YYYY-MM-DD` date key: `formatDateKey` builds it from (year,
  zero-based month, day); the first line of `displayDate` takes it apart
  again with `split("-")` and `Number`.
 */
module DateKey {
  import opened Wrappers
  import opened JsText

  predicate IsDigit(c: char)
  {
    '0' <= c <= '9'
  }

  predicate AllDigits(s: string)
  {
    forall i :: 0 <= i < |s| ==> IsDigit(s[i])
  }

  function DigitChar(d: int): (c: char)
    requires 0 <= d < 10
    ensures IsDigit(c) && c as int - '0' as int == d
  {
    ('0' as int + d) as char
  }

  /** Decimal digits of `n`, most significant first, no leading zero. */
  function Digits(n: nat): (s: string)
    ensures |s| >= 1 && AllDigits(s)
    ensures |s| == 1 <==> n < 10
    ensures |s| == 2 <==> 10 <= n < 100
  {
    if n < 10 then [DigitChar(n)] else Digits(n / 10) + [DigitChar(n % 10)]
  }

  /** `String(n)` for an integer `n`: a sign exactly for a negative number, then the digits of its magnitude. */
  function IntToString(n: int): (s: string)
    ensures (|s| > 0 && s[0] == '-') <==> n < 0
    ensures n >= 0 ==> s == Digits(n)
    ensures n < 0 ==> s == ['-'] + Digits(-n)
  {
    if n < 0 then ['-'] + Digits(-n) else Digits(n)
  }

  /** The number a string of decimal digits denotes (0 for the empty string). */
  function DigitsValue(s: string): nat
    requires AllDigits(s)
  {
    if s == [] then 0 else DigitsValue(s[..|s| - 1]) * 10 + (s[|s| - 1] as int - '0' as int)
  }

  lemma {:induction false} DigitsValueOfDigits(n: nat)
    ensures DigitsValue(Digits(n)) == n
  {
    if n >= 10 {
      DigitsValueOfDigits(n / 10);
      assert Digits(n)[..|Digits(n)| - 1] == Digits(n / 10);
    }
  }

  /** Only the number 0 is written with a leading zero. */
  lemma {:induction false} DigitsLeadingZero(n: nat)
    ensures Digits(n)[0] == '0' <==> n == 0
  {
    if n >= 10 {
      DigitsLeadingZero(n / 10);
      assert Digits(n)[0] == Digits(n / 10)[0];
    }
  }

  /**
    After the sign, `String(n)` is a non-empty run of decimal digits,
    without a leading zero, whose value is the magnitude of `n`.
   */
  lemma DecimalForm(n: int)
    ensures var s := IntToString(n);
      var ds := if n < 0 then s[1..] else s;
      ds != [] && AllDigits(ds) && DigitsValue(ds) == (if n < 0 then -n else n)
      && (|ds| > 1 ==> ds[0] != '0')
  {
    var m := if n < 0 then -n else n;
    DigitsValueOfDigits(m);
    DigitsLeadingZero(m);
    assert (if n < 0 then IntToString(n)[1..] else IntToString(n)) == Digits(m);
  }

  lemma {:induction false} LeadingZero(s: string)
    requires AllDigits(s)
    ensures AllDigits(['0'] + s) && DigitsValue(['0'] + s) == DigitsValue(s)
  {
    if s != [] {
      LeadingZero(s[..|s| - 1]);
      assert (['0'] + s)[..|s|] == ['0'] + s[..|s| - 1];
    }
  }

  /** A JavaScript number as far as the parse can produce one. */
  datatype Num = Value(v: int) | NaN

  /**
    `Number(s)` for a string: surrounding whitespace is ignored, the empty
    string is 0, an optionally signed run of decimal digits is its value.
    Every other string is NaN here.
   */
  function ToNumber(s: string): (x: Num)
    ensures AllDigits(Trim(s)) ==> x == Value(DigitsValue(Trim(s)))
  {
    var t := Trim(s);
    if AllDigits(t) then Value(DigitsValue(t))
    else if |t| > 1 && t[0] == '+' && AllDigits(t[1..]) then Value(DigitsValue(t[1..]))
    else if |t| > 1 && t[0] == '-' && AllDigits(t[1..]) then Value(-(DigitsValue(t[1..]) as int))
    else NaN
  }

  /** `String(n).padStart(2, "0")`. */
  function TwoDigits(n: int): string
  {
    PadStart(IntToString(n), 2, '0')
  }

  /** `formatDateKey(year, month, day)`: `${year}-MM-DD` with month + 1 and day padded to two places. */
  function FormatDateKey(year: int, month: int, day: int): string
  {
    IntToString(year) + ['-'] + TwoDigits(month + 1) + ['-'] + TwoDigits(day)
  }

  /** The numbers `[y, m, d]` that `displayDate` hands to `new Date(y, m - 1, d)`. */
  datatype DateParts = DateParts(year: Num, month: Num, day: Num)

  /** Element `i` run through `Number`; a missing element is `undefined`, which `Date` reads as NaN. */
  function Component(parts: seq<string>, i: nat): Num
  {
    if i < |parts| then ToNumber(parts[i]) else NaN
  }

  /**
    `displayDate(dateStr)` up to the `Date` construction: an empty string is
    answered at once (with ""); otherwise the string is split on "-" and the
    first three pieces are converted with `Number`.
   */
  function DisplayDateParts(dateStr: string): (r: Option<DateParts>)
    ensures r.None? <==> dateStr == ""
  {
    if dateStr == "" then None
    else
      var parts := Split(dateStr, '-');
      Some(DateParts(Component(parts, 0), Component(parts, 1), Component(parts, 2)))
  }

  /** A padded non-negative number is a run of digits with the same value, and two long below 100. */
  lemma TwoDigitsValue(n: nat)
    ensures AllDigits(TwoDigits(n)) && DigitsValue(TwoDigits(n)) == n
    ensures n < 100 ==> |TwoDigits(n)| == 2
    ensures '-' !in TwoDigits(n)
  {
    DigitsValueOfDigits(n);
    if n < 10 {
      assert TwoDigits(n) == ['0'] + Digits(n);
      LeadingZero(Digits(n));
    }
  }

  /** `Number` of a non-empty digit string is its value. */
  lemma NumberOfDigits(s: string)
    requires s != [] && AllDigits(s)
    ensures ToNumber(s) == Value(DigitsValue(s))
  {
    assert !IsWhitespace(s[0]) && !IsWhitespace(s[|s| - 1]);
    TrimIdentity(s);
  }

  /** Below 100, the padded form is exactly the tens digit then the units digit. */
  lemma TwoDigitsForm(n: int)
    requires 0 <= n < 100
    ensures TwoDigits(n) == [DigitChar(n / 10), DigitChar(n % 10)]
  {
    if n < 10 {
      assert TwoDigits(n) == ['0'] + Digits(n);
    } else {
      assert Digits(n) == Digits(n / 10) + [DigitChar(n % 10)];
    }
  }

  lemma DashPieces(y: string, m: string, d: string)
    requires |m| == 2 && |d| == 2
    ensures y + ['-'] + m + ['-'] + d == y + ['-', m[0], m[1]] + ['-', d[0], d[1]]
  {
  }

  /**
    For month 0..11 and day 0..99 the key is the year's decimal form, a
    dash, the month number (1..12) as exactly two digits, a dash, and the
    day as exactly two digits.
   */
  lemma FormatDateKeyShape(year: int, month: int, day: int)
    requires 0 <= month < 12 && 0 <= day < 100
    ensures FormatDateKey(year, month, day) == IntToString(year)
      + ['-', DigitChar((month + 1) / 10), DigitChar((month + 1) % 10)]
      + ['-', DigitChar(day / 10), DigitChar(day % 10)]
  {
    TwoDigitsForm(month + 1);
    TwoDigitsForm(day);
    DashPieces(IntToString(year), TwoDigits(month + 1), TwoDigits(day));
  }

  /** A digit run holds no dash. */
  lemma DigitsHaveNoDash(s: string)
    requires AllDigits(s)
    ensures '-' !in s
  {
    assert forall i :: 0 <= i < |s| ==> s[i] != '-';
  }

  /** Splitting `y-m-d` on dashes, when no piece holds a dash. */
  lemma SplitThree(key: string, y: string, m: string, d: string)
    requires '-' !in y && '-' !in m && '-' !in d
    requires key == y + ['-'] + m + ['-'] + d
    ensures Split(key, '-') == [y, m, d]
  {
    assert key == y + ['-'] + (m + ['-'] + d);
    SplitAtSeparator(y, m + ['-'] + d, '-');
    SplitAtSeparator(m, d, '-');
    SplitNoSeparator(d, '-');
  }

  /** A leading dash splits off an empty first piece. */
  lemma SplitSigned(key: string, rest: string)
    requires key == ['-'] + rest
    ensures Split(key, '-') == [""] + Split(rest, '-')
  {
    assert key[1..] == rest;
  }

  /** `displayDate` reads the first three pieces of a non-empty key. */
  lemma PartsOfKey(key: string, parts: seq<string>)
    requires key != "" && Split(key, '-') == parts && |parts| >= 3
    ensures DisplayDateParts(key) == Some(DateParts(ToNumber(parts[0]), ToNumber(parts[1]), ToNumber(parts[2])))
  {
  }

  /** Three digit runs joined by dashes parse back to their three values. */
  lemma ParseThreePieces(key: string, y: string, m: string, d: string)
    requires y != [] && AllDigits(y) && m != [] && AllDigits(m) && d != [] && AllDigits(d)
    requires key == y + ['-'] + m + ['-'] + d
    ensures DisplayDateParts(key)
      == Some(DateParts(Value(DigitsValue(y)), Value(DigitsValue(m)), Value(DigitsValue(d))))
  {
    DigitsHaveNoDash(y);
    DigitsHaveNoDash(m);
    DigitsHaveNoDash(d);
    SplitThree(key, y, m, d);
    PartsOfKey(key, [y, m, d]);
    NumberOfDigits(y);
    NumberOfDigits(m);
    NumberOfDigits(d);
  }

  /** The key of a non-negative year, as its three digit runs. */
  lemma KeyShape(year: int, month: int, day: int)
    requires year >= 0
    ensures FormatDateKey(year, month, day) == Digits(year) + ['-'] + TwoDigits(month + 1) + ['-'] + TwoDigits(day)
  {
  }

  /**
    Round trip: for a non-negative year, parsing the key back yields the
    year, the one-based month and the day that built it.
   */
  lemma KeyRoundTrip(year: int, month: int, day: int)
    requires year >= 0 && month + 1 >= 0 && day >= 0
    ensures DisplayDateParts(FormatDateKey(year, month, day))
      == Some(DateParts(Value(year), Value(month + 1), Value(day)))
  {
    KeyShape(year, month, day);
    TwoDigitsValue(month + 1);
    TwoDigitsValue(day);
    DigitsValueOfDigits(year);
    ParseThreePieces(FormatDateKey(year, month, day), Digits(year), TwoDigits(month + 1), TwoDigits(day));
  }

  /**
    Distinct dates never share a key, in any year: the key of a negative
    year starts with "-" and that of a non-negative one never does; two
    non-negative years round-trip, and two negative ones split into the
    same four pieces.
   */
  lemma KeyInjective(y1: int, m1: int, d1: int, y2: int, m2: int, d2: int)
    requires m1 + 1 >= 0 && d1 >= 0
    requires m2 + 1 >= 0 && d2 >= 0
    requires FormatDateKey(y1, m1, d1) == FormatDateKey(y2, m2, d2)
    ensures y1 == y2 && m1 == m2 && d1 == d2
  {
    SameSign(y1, m1, d1, y2, m2, d2);
    if y1 >= 0 {
      KeyRoundTrip(y1, m1, d1);
      KeyRoundTrip(y2, m2, d2);
    } else {
      NegativeYearKey(y1, m1, d1);
      NegativeYearKey(y2, m2, d2);
      SplitNegativeKey(y1, m1, d1);
      SplitNegativeKey(y2, m2, d2);
      TwoDigitsValue(d1);
      TwoDigitsValue(d2);
    }
  }

  /** Equal keys come from years of the same sign: the key starts with "-" exactly for a negative year. */
  lemma SameSign(y1: int, m1: int, d1: int, y2: int, m2: int, d2: int)
    requires FormatDateKey(y1, m1, d1) == FormatDateKey(y2, m2, d2)
    ensures y1 < 0 <==> y2 < 0
  {
    assert FormatDateKey(y1, m1, d1)[0] == IntToString(y1)[0];
    assert FormatDateKey(y2, m2, d2)[0] == IntToString(y2)[0];
  }

  /** Within one month of any year, including a negative one, distinct days have distinct keys. */
  lemma DayKeysDistinct(year: int, month: int, d1: nat, d2: nat)
    requires d1 != d2
    ensures FormatDateKey(year, month, d1) != FormatDateKey(year, month, d2)
  {
    var p := IntToString(year) + ['-'] + TwoDigits(month + 1) + ['-'];
    assert FormatDateKey(year, month, d1) == p + TwoDigits(d1);
    assert FormatDateKey(year, month, d2) == p + TwoDigits(d2);
    if FormatDateKey(year, month, d1) == FormatDateKey(year, month, d2) {
      assert (p + TwoDigits(d1))[|p|..] == TwoDigits(d1);
      assert (p + TwoDigits(d2))[|p|..] == TwoDigits(d2);
      TwoDigitsValue(d1);
      TwoDigitsValue(d2);
    }
  }

  /**
    A negative year breaks the round trip: the key starts with the sign,
    `split` yields an empty first piece, `Number("")` is 0, and the parse
    reads year 0, the year's magnitude as the month and the month as the
    day (the key "-1-01-01" reads as year 0, month 1, day 1).
   */
  lemma NegativeYearKey(year: int, month: int, day: int)
    requires year < 0 && month + 1 >= 0 && day >= 0
    ensures DisplayDateParts(FormatDateKey(year, month, day))
      == Some(DateParts(Value(0), Value(-year), Value(month + 1)))
  {
    var y, m := Digits(-year), TwoDigits(month + 1);
    SplitNegativeKey(year, month, day);
    PartsOfKey(FormatDateKey(year, month, day), ["", y, m, TwoDigits(day)]);
    EmptyIsZero();
    NumberOfMagnitude(year);
    NumberOfPadded(month + 1);
  }

  /** The key of a negative year splits into an empty piece, the magnitude, the month and the day. */
  lemma SplitNegativeKey(year: int, month: int, day: int)
    requires year < 0 && month + 1 >= 0 && day >= 0
    ensures Split(FormatDateKey(year, month, day), '-') == ["", Digits(-year), TwoDigits(month + 1), TwoDigits(day)]
  {
    var y, m, d := Digits(-year), TwoDigits(month + 1), TwoDigits(day);
    PaddedDigits(month + 1);
    PaddedDigits(day);
    DigitsHaveNoDash(y);
    NegativeKeyShape(year, month, day);
    SplitSignedPieces(FormatDateKey(year, month, day), y, m, d);
  }

  /** A dash followed by three dash-free pieces joined by dashes splits into an empty piece and the three. */
  lemma SplitSignedPieces(key: string, y: string, m: string, d: string)
    requires '-' !in y && '-' !in m && '-' !in d
    requires key == ['-'] + y + ['-'] + m + ['-'] + d
    ensures Split(key, '-') == ["", y, m, d]
  {
    var rest := y + ['-'] + m + ['-'] + d;
    assert key == ['-'] + rest;
    SplitSigned(key, rest);
    SplitThree(rest, y, m, d);
  }

  /** The key of a negative year: a dash, then the digits of the magnitude, the month and the day. */
  lemma NegativeKeyShape(year: int, month: int, day: int)
    requires year < 0
    ensures FormatDateKey(year, month, day)
      == ['-'] + Digits(-year) + ['-'] + TwoDigits(month + 1) + ['-'] + TwoDigits(day)
  {
  }

  /** A padded number is a dash-free run of digits. */
  lemma PaddedDigits(n: nat)
    ensures AllDigits(TwoDigits(n)) && '-' !in TwoDigits(n)
  {
    if n < 10 {
      assert TwoDigits(n) == ['0'] + Digits(n);
    }
    DigitsHaveNoDash(TwoDigits(n));
  }

  /** `Number("")` is 0. */
  lemma EmptyIsZero()
    ensures ToNumber("") == Value(0)
  {
    assert Trim("") == "";
  }

  /** `Number` reads the digits of a negative year's magnitude as that magnitude. */
  lemma NumberOfMagnitude(year: int)
    requires year < 0
    ensures ToNumber(Digits(-year)) == Value(-year)
  {
    var magnitude: nat := -year;
    DigitsValueOfDigits(magnitude);
    NumberOfDigits(Digits(magnitude));
  }

  /** `Number` reads a padded number as the number. */
  lemma NumberOfPadded(n: nat)
    ensures ToNumber(TwoDigits(n)) == Value(n)
  {
    TwoDigitsValue(n);
    NumberOfDigits(TwoDigits(n));
  }
}
