/**
 * The date form the log uses, zero-padded `YYYY-MM-DD`, read as Python's
 * `date` reads it: a day number equal to `date.toordinal()` (1 for
 * 0001-01-01, proleptic Gregorian calendar, years 1 to 9999).
 *
 * The scripts sort and take maxima by the raw date string and only then
 * parse. For strings of this form the two orders coincide, which is what
 * `Incidents.Chronological` takes as a hypothesis; this module proves it.
 */
module IsoDates {
  import opened Incidents
  import CheckCounter

  // ---------------------------------------------------------------------
  // Fixed-width decimal numbers
  // ---------------------------------------------------------------------

  predicate IsDigit(c: char)
  {
    '0' <= c <= '9'
  }

  predicate AllDigits(s: string)
  {
    forall i :: 0 <= i < |s| ==> IsDigit(s[i])
  }

  function Pow10(n: nat): (p: nat)
    ensures p >= 1
  {
    if n == 0 then 1 else 10 * Pow10(n - 1)
  }

  /** The value of a string of decimal digits, most significant digit first. */
  function Num(s: string): (n: nat)
    requires AllDigits(s)
    ensures n < Pow10(|s|)
  {
    if |s| == 0 then 0
    else
      var d := s[0] as int - '0' as int;
      var p := Pow10(|s| - 1);
      var rest := Num(s[1..]);
      DigitBound(d, rest, p);
      d * p + rest
  }

  lemma DigitBound(d: int, r: int, p: int)
    requires 0 <= d <= 9 && 0 <= r < p
    ensures 0 <= d * p && d * p + r < 10 * p
  {
    assert (9 - d) * p >= 0;
  }

  /** A smaller leading digit outweighs everything after it. */
  lemma LeadingDigit(dx: int, dy: int, rx: int, ry: int, p: int)
    requires 0 <= dx < dy && 0 <= rx < p && 0 <= ry
    ensures dx * p + rx < dy * p + ry
  {
    assert (dx + 1) * p <= dy * p;
  }

  /** Among digit strings of one length, string order is numeric order. */
  lemma {:induction false} NumOrder(x: string, y: string)
    requires |x| == |y| && AllDigits(x) && AllDigits(y)
    ensures StrLe(x, y) <==> Num(x) <= Num(y)
  {
    if |x| > 0 {
      NumOrder(x[1..], y[1..]);
      var p := Pow10(|x| - 1);
      var dx, dy := x[0] as int - '0' as int, y[0] as int - '0' as int;
      assert Num(x) == dx * p + Num(x[1..]);
      assert Num(y) == dy * p + Num(y[1..]);
      if dx < dy {
        LeadingDigit(dx, dy, Num(x[1..]), Num(y[1..]), p);
      } else if dy < dx {
        LeadingDigit(dy, dx, Num(y[1..]), Num(x[1..]), p);
      }
    }
  }

  /** ... and strict string order is strict numeric order. */
  lemma NumStrictOrder(x: string, y: string)
    requires |x| == |y| && AllDigits(x) && AllDigits(y)
    ensures StrLt(x, y) <==> Num(x) < Num(y)
  {
    NumOrder(x, y);
    NumOrder(y, x);
    if StrLe(x, y) && StrLe(y, x) {
      StrLeAntisymmetric(x, y);
    }
    if x == y {
      StrLeReflexive(x);
    }
  }

  /** Digit strings of one length are equal exactly when their values are. */
  lemma NumEqual(x: string, y: string)
    requires |x| == |y| && AllDigits(x) && AllDigits(y)
    ensures x == y <==> Num(x) == Num(y)
  {
    NumOrder(x, y);
    NumOrder(y, x);
    if Num(x) == Num(y) {
      StrLeAntisymmetric(x, y);
    }
  }

  /** The leading digit of a number below `10 * p`, and what is left. */
  lemma LeadingDigitOf(n: int, p: int)
    requires 0 <= n < 10 * p && p >= 1
    ensures 0 <= n / p <= 9 && n == (n / p) * p + n % p && 0 <= n % p < p
  {
    MulMonotone(n / p, 10, p);
  }

  lemma MulMonotone(a: int, b: int, p: int)
    requires p >= 0
    ensures a >= b ==> a * p >= b * p
    ensures (a + 1) * p == a * p + p
  {
    assert (a - b) * p == a * p - b * p;
    if a >= b {
      assert (a - b) * p >= 0;
    }
  }

  /** `n` written with exactly `width` digits, zero-padded on the left (`%04d`, `%02d`). */
  function Digits(n: nat, width: nat): (s: string)
    requires n < Pow10(width)
    ensures |s| == width && AllDigits(s) && Num(s) == n
  {
    if width == 0 then ""
    else
      var p := Pow10(width - 1);
      LeadingDigitOf(n, p);
      var s := [('0' as int + n / p) as char] + Digits(n % p, width - 1);
      assert s[1..] == Digits(n % p, width - 1);
      s
  }

  /** A digit string is the zero-padded form of its own value. */
  lemma {:induction false} DigitsOfNum(s: string)
    requires AllDigits(s)
    ensures Digits(Num(s), |s|) == s
  {
    if |s| > 0 {
      var p := Pow10(|s| - 1);
      var d := s[0] as int - '0' as int;
      DigitsOfNum(s[1..]);
      LeadingDigitOf(Num(s), p);
      DigitBound(d, Num(s[1..]), p);
      DivUnique(Num(s), p, d, Num(s[1..]));
    }
  }

  lemma DivUnique(n: int, p: int, q: int, r: int)
    requires p >= 1 && 0 <= r < p && n == q * p + r
    ensures n / p == q && n % p == r
  {
    var q', r' := n / p, n % p;
    assert n == q' * p + r';
    MulMonotone(q, q' + 1, p);
    MulMonotone(q', q + 1, p);
  }

  /** Comparing two concatenations whose first parts have the same length. */
  lemma {:induction false} StrLeConcat(p: string, q: string, p': string, q': string)
    requires |p| == |p'|
    ensures StrLe(p + q, p' + q') <==> StrLt(p, p') || (p == p' && StrLe(q, q'))
  {
    if |p| == 0 {
      assert p + q == q && p' + q' == q';
    } else {
      StrLeConcat(p[1..], q, p'[1..], q');
      assert (p + q)[1..] == p[1..] + q;
      assert (p' + q')[1..] == p'[1..] + q';
      assert p == [p[0]] + p[1..] && p' == [p'[0]] + p'[1..];
      if p[0] == p'[0] {
        StrLeReflexive(p);
      }
    }
  }

  // ---------------------------------------------------------------------
  // The calendar of Python's `date`
  // ---------------------------------------------------------------------

  predicate IsLeap(year: int)
  {
    year % 4 == 0 && (year % 100 != 0 || year % 400 == 0)
  }

  function DaysInYear(year: int): int
  {
    if IsLeap(year) then 366 else 365
  }

  function DaysInMonth(year: int, month: int): (n: int)
    requires 1 <= month <= 12
    ensures 28 <= n <= 31
  {
    if month == 2 then (if IsLeap(year) then 29 else 28)
    else if month == 4 || month == 6 || month == 9 || month == 11 then 30
    else 31
  }

  /** Days in the year before the first of `month`. */
  function DaysBeforeMonth(year: int, month: int): int
    requires 1 <= month <= 12
  {
    [0, 31, 59, 90, 120, 151, 181, 212, 243, 273, 304, 334][month - 1]
    + (if month > 2 && IsLeap(year) then 1 else 0)
  }

  /** Days before January 1st of `year`, counted from January 1st of year 1. */
  function DaysBeforeYear(year: int): int
    requires year >= 1
  {
    var y := year - 1;
    y * 365 + y / 4 - y / 100 + y / 400
  }

  /** A date Python's `date` accepts: years 1 to 9999 and a day that exists in its month. */
  predicate ValidDate(year: int, month: int, day: int)
  {
    1 <= year <= 9999 && 1 <= month <= 12 && 1 <= day <= DaysInMonth(year, month)
  }

  /** `date(year, month, day).toordinal()`. */
  function Ordinal(year: int, month: int, day: int): int
    requires ValidDate(year, month, day)
  {
    DaysBeforeYear(year) + DaysBeforeMonth(year, month) + day
  }

  /** The months of a year follow one another without a gap. */
  lemma MonthStep(year: int, month: int)
    requires 1 <= month < 12
    ensures DaysBeforeMonth(year, month + 1) == DaysBeforeMonth(year, month) + DaysInMonth(year, month)
  {
  }

  lemma YearEnd(year: int)
    ensures DaysBeforeMonth(year, 12) + DaysInMonth(year, 12) == DaysInYear(year)
  {
  }

  /** ... and so do the years. */
  lemma YearStep(year: int)
    requires year >= 1
    ensures DaysBeforeYear(year + 1) == DaysBeforeYear(year) + DaysInYear(year)
  {
    var y := year - 1;
    assert year / 4 == y / 4 + (if year % 4 == 0 then 1 else 0);
    assert year / 100 == y / 100 + (if year % 100 == 0 then 1 else 0);
    assert year / 400 == y / 400 + (if year % 400 == 0 then 1 else 0);
  }

  lemma {:induction false} DaysBeforeYearMonotone(a: int, b: int)
    requires 1 <= a <= b
    ensures DaysBeforeYear(a) <= DaysBeforeYear(b)
    decreases b - a
  {
    if a < b {
      YearStep(a);
      DaysBeforeYearMonotone(a + 1, b);
    }
  }

  /** A date falls after every day of the years before it and within its own year. */
  lemma OrdinalInYear(year: int, month: int, day: int)
    requires ValidDate(year, month, day)
    ensures DaysBeforeYear(year) < Ordinal(year, month, day) <= DaysBeforeYear(year) + DaysInYear(year)
  {
    assert DaysBeforeMonth(year, month) + DaysInMonth(year, month) <= DaysInYear(year);
  }

  /** Later in the calendar, by year, then month, then day, means a larger day number. */
  lemma OrdinalIncreasing(y1: int, m1: int, d1: int, y2: int, m2: int, d2: int)
    requires ValidDate(y1, m1, d1) && ValidDate(y2, m2, d2)
    requires y1 < y2 || (y1 == y2 && (m1 < m2 || (m1 == m2 && d1 < d2)))
    ensures Ordinal(y1, m1, d1) < Ordinal(y2, m2, d2)
  {
    if y1 < y2 {
      OrdinalInYear(y1, m1, d1);
      OrdinalInYear(y2, m2, d2);
      YearStep(y1);
      DaysBeforeYearMonotone(y1 + 1, y2);
    } else if m1 < m2 {
      assert DaysBeforeMonth(y1, m1) + DaysInMonth(y1, m1) <= DaysBeforeMonth(y1, m2);
    }
  }

  /** Day numbers compare exactly as dates do, year first, then month, then day. */
  lemma OrdinalOrder(y1: int, m1: int, d1: int, y2: int, m2: int, d2: int)
    requires ValidDate(y1, m1, d1) && ValidDate(y2, m2, d2)
    ensures Ordinal(y1, m1, d1) <= Ordinal(y2, m2, d2) <==>
              y1 < y2 || (y1 == y2 && (m1 < m2 || (m1 == m2 && d1 <= d2)))
  {
    if y1 < y2 || (y1 == y2 && (m1 < m2 || (m1 == m2 && d1 < d2))) {
      OrdinalIncreasing(y1, m1, d1, y2, m2, d2);
    } else if y2 < y1 || (y1 == y2 && (m2 < m1 || (m1 == m2 && d2 < d1))) {
      OrdinalIncreasing(y2, m2, d2, y1, m1, d1);
    }
  }

  // ---------------------------------------------------------------------
  // Zero-padded YYYY-MM-DD strings
  // ---------------------------------------------------------------------

  /** Ten characters, dashes at 4 and 7, digits elsewhere, naming a date that exists. */
  predicate IsIsoDate(s: string)
  {
    && |s| == 10 && s[4] == '-' && s[7] == '-'
    && AllDigits(s[..4]) && AllDigits(s[5..7]) && AllDigits(s[8..])
    && ValidDate(Num(s[..4]), Num(s[5..7]), Num(s[8..]))
  }

  function Year(s: string): int
    requires IsIsoDate(s)
  {
    Num(s[..4])
  }

  function Month(s: string): int
    requires IsIsoDate(s)
  {
    Num(s[5..7])
  }

  function Day(s: string): int
    requires IsIsoDate(s)
  {
    Num(s[8..])
  }

  /**
   * `datetime.strptime(s, '%Y-%m-%d').date().toordinal()` on strings of the
   * canonical form; `None` for every other string.
   */
  function ParseIso(s: string): Option<int>
  {
    if IsIsoDate(s) then Some(Ordinal(Year(s), Month(s), Day(s))) else None
  }

  /** Python's string order on canonical dates: year first, then month, then day. */
  lemma {:induction false} IsoStringOrder(a: string, b: string)
    requires IsIsoDate(a) && IsIsoDate(b)
    ensures StrLe(a, b) <==>
              Year(a) < Year(b) || (Year(a) == Year(b) && (Month(a) < Month(b) || (Month(a) == Month(b) && Day(a) <= Day(b))))
  {
    assert a == a[..4] + a[4..] && b == b[..4] + b[4..];
    StrLeConcat(a[..4], a[4..], b[..4], b[4..]);
    assert a[4..] == a[4..5] + a[5..] && b[4..] == b[4..5] + b[5..];
    assert a[4..5] == b[4..5];
    StrLeConcat(a[4..5], a[5..], b[4..5], b[5..]);
    assert a[5..] == a[5..7] + a[7..] && b[5..] == b[5..7] + b[7..];
    StrLeConcat(a[5..7], a[7..], b[5..7], b[7..]);
    assert a[7..] == a[7..8] + a[8..] && b[7..] == b[7..8] + b[8..];
    assert a[7..8] == b[7..8];
    StrLeConcat(a[7..8], a[8..], b[7..8], b[8..]);
    NumStrictOrder(a[..4], b[..4]);
    NumEqual(a[..4], b[..4]);
    NumStrictOrder(a[5..7], b[5..7]);
    NumEqual(a[5..7], b[5..7]);
    NumOrder(a[8..], b[8..]);
  }

  /** On canonical dates, string order is day order. */
  lemma IsoDateOrder(a: string, b: string)
    requires IsIsoDate(a) && IsIsoDate(b)
    ensures StrLe(a, b) <==> ParseIso(a).value <= ParseIso(b).value
  {
    IsoStringOrder(a, b);
    OrdinalOrder(Year(a), Month(a), Day(a), Year(b), Month(b), Day(b));
  }

  /**
   * Every parser that reads canonical dates as Python does, wherever it
   * succeeds, satisfies the hypothesis `Chronological` on a log of canonical
   * dates.
   */
  lemma IsoDatesChronological(parse: Parser, ds: seq<string>)
    requires forall i :: 0 <= i < |ds| ==> IsIsoDate(ds[i])
    requires forall i :: 0 <= i < |ds| ==> parse(ds[i]).None? || parse(ds[i]) == ParseIso(ds[i])
    ensures Chronological(parse, ds)
  {
    forall i, j | 0 <= i < |ds| && 0 <= j < |ds|
      ensures ChronologicalPair(parse, ds[i], ds[j])
    {
      IsoDateOrder(ds[i], ds[j]);
    }
  }

  /** `date(year, month, day).strftime('%Y-%m-%d')`. */
  function FormatIso(year: int, month: int, day: int): string
    requires ValidDate(year, month, day)
  {
    Digits(year, 4) + "-" + Digits(month, 2) + "-" + Digits(day, 2)
  }

  /** Formatting a date and parsing it back gives that date's day number. */
  lemma ParseFormatIso(year: int, month: int, day: int)
    requires ValidDate(year, month, day)
    ensures IsIsoDate(FormatIso(year, month, day))
    ensures ParseIso(FormatIso(year, month, day)) == Some(Ordinal(year, month, day))
  {
    var s := FormatIso(year, month, day);
    assert s[..4] == Digits(year, 4);
    assert s[5..7] == Digits(month, 2);
    assert s[8..] == Digits(day, 2);
  }

  /** A canonical date string is the formatting of the date it names: the form admits no variants. */
  lemma FormatParsedIso(s: string)
    requires IsIsoDate(s)
    ensures FormatIso(Year(s), Month(s), Day(s)) == s
  {
    DigitsOfNum(s[..4]);
    DigitsOfNum(s[5..7]);
    DigitsOfNum(s[8..]);
    assert s == s[..4] + "-" + s[5..7] + "-" + s[8..];
  }

  /**
   * On a log of canonical dates the daily check needs no hypothesis: the
   * count runs from the chronologically latest incident.
   */
  lemma IsoLogCountsFromLatest(incidents: seq<Incident>, today: int)
    requires |incidents| > 0
    requires forall i :: 0 <= i < |incidents| ==> IsIsoDate(incidents[i].date)
    ensures CheckCounter.DaysSince(incidents, ParseIso, today).Ok?
    ensures forall i :: 0 <= i < |incidents| ==>
              CheckCounter.DaysSince(incidents, ParseIso, today).value <= today - ParseIso(incidents[i].date).value
  {
    var ds := Dates(incidents);
    IsoDatesChronological(ParseIso, ds);
    var k :| 0 <= k < |incidents| && incidents[k].date == LastIncidentDate(incidents).value;
    assert |incidents[k].date| == 10;
    CheckCounter.DaysSinceFromLatestDay(incidents, ParseIso, today);
  }

  /** `date.strftime('%Y-%m')`: the key under which the timeline counts a date's month. */
  function MonthKey(year: int, month: int): string
    requires 1 <= year <= 9999 && 1 <= month <= 12
  {
    Digits(year, 4) + "-" + Digits(month, 2)
  }

  /** The month key of a canonical date is its first seven characters. */
  lemma MonthKeyIsPrefix(s: string)
    requires IsIsoDate(s)
    ensures MonthKey(Year(s), Month(s)) == s[..7]
  {
    FormatParsedIso(s);
    assert s[..7] == Digits(Year(s), 4) + "-" + Digits(Month(s), 2);
  }

  /** Sorting month keys as strings puts the months in calendar order. */
  lemma {:induction false} MonthKeyOrder(y1: int, m1: int, y2: int, m2: int)
    requires 1 <= y1 <= 9999 && 1 <= m1 <= 12 && 1 <= y2 <= 9999 && 1 <= m2 <= 12
    ensures StrLe(MonthKey(y1, m1), MonthKey(y2, m2)) <==> y1 < y2 || (y1 == y2 && m1 <= m2)
  {
    var a, b := MonthKey(y1, m1), MonthKey(y2, m2);
    StrLeConcat(Digits(y1, 4), "-" + Digits(m1, 2), Digits(y2, 4), "-" + Digits(m2, 2));
    assert a == Digits(y1, 4) + ("-" + Digits(m1, 2)) && b == Digits(y2, 4) + ("-" + Digits(m2, 2));
    StrLeConcat("-", Digits(m1, 2), "-", Digits(m2, 2));
    NumStrictOrder(Digits(y1, 4), Digits(y2, 4));
    NumEqual(Digits(y1, 4), Digits(y2, 4));
    NumOrder(Digits(m1, 2), Digits(m2, 2));
  }

  // ---------------------------------------------------------------------
  // A worked example
  // ---------------------------------------------------------------------

  lemma ExampleYear()
    ensures Digits(2024, 4) == "2024"
  {
    assert Pow10(1) == 10 && Pow10(2) == 100 && Pow10(3) == 1000;
    assert Digits(4, 1) == "4";
    assert Digits(24, 2) == "24";
    assert Digits(24, 3) == "024";
  }

  lemma ExampleMonthAndDays()
    ensures Digits(1, 2) == "01" && Digits(11, 2) == "11"
  {
    assert Pow10(1) == 10;
    assert Digits(1, 1) == "1";
  }

  /** The two dates of the example, as the log writes them. */
  lemma ExampleDates()
    ensures FormatIso(2024, 1, 1) == "2024-01-01" && FormatIso(2024, 1, 11) == "2024-01-11"
  {
    ExampleYear();
    ExampleMonthAndDays();
  }

  /** The example's distances in days. */
  lemma ExampleDays()
    ensures Ordinal(2024, 2, 10) - Ordinal(2024, 1, 11) == 30
    ensures Ordinal(2024, 1, 11) - Ordinal(2024, 1, 1) == 10
  {
  }

  /** A log of two incidents, in the order given. */
  function TwoIncidents(a: string, b: string): seq<Incident>
  {
    [Incident(a, None, None, None), Incident(b, None, None, None)]
  }

  /** The current streak runs from the later of two incidents. */
  lemma TwoIncidentsCurrentStreak(a: string, b: string, parse: Parser, today: int)
    requires StrLt(a, b) && parse(b).Some?
    ensures CheckCounter.DaysSince(TwoIncidents(a, b), parse, today) == Ok(today - parse(b).value)
  {
    var log := TwoIncidents(a, b);
    var last := LastIncidentDate(log).value;
    if last == a {
      StrLeAntisymmetric(a, b);
    }
  }

  /** The record of two incidents is the larger of the gap between them and the current streak. */
  lemma TwoIncidentsRecord(a: string, b: string, parse: Parser, today: int)
    requires StrLt(a, b) && parse(a).Some? && parse(b).Some?
    ensures CheckCounter.RecordStreakOf(TwoIncidents(a, b), parse, today) ==
              Ok(Max(Max(0, parse(b).value - parse(a).value), today - parse(b).value))
  {
    TwoIncidentsCurrentStreak(a, b, parse, today);
    var days := [parse(a).value, parse(b).value];
    assert Dates(TwoIncidents(a, b)) == [a, b];
    assert SortStrings([a, b]) == [a, b];
    var parsed := ParseAll(parse, [a, b]);
    assert parsed.Ok? && parse([a, b][0]) == Some(parsed.value[0]) && parse([a, b][1]) == Some(parsed.value[1]);
    assert parsed.value == days;
    assert CheckCounter.MaxGap(days) == Max(0, days[1] - days[0]);
  }

  /**
   * Incidents on 2024-01-01 and 2024-01-11 (a gap of 10 days, see
   * ExampleDates), checked on 2024-02-10.
   * The current streak is 30 days, and so is the record, max(10, 30): a new
   * record.
   */
  lemma WorkedExample()
    ensures var log := TwoIncidents(FormatIso(2024, 1, 1), FormatIso(2024, 1, 11));
            var today := Ordinal(2024, 2, 10);
            && CheckCounter.DaysSince(log, ParseIso, today) == Ok(30)
            && CheckCounter.RecordStreakOf(log, ParseIso, today) == Ok(30)
            && CheckCounter.IsNewRecord(30, 30)
  {
    var a, b := FormatIso(2024, 1, 1), FormatIso(2024, 1, 11);
    ParseFormatIso(2024, 1, 1);
    ParseFormatIso(2024, 1, 11);
    ExampleDays();
    IsoDateOrder(a, b);
    IsoDateOrder(b, a);
    TwoIncidentsCurrentStreak(a, b, ParseIso, Ordinal(2024, 2, 10));
    TwoIncidentsRecord(a, b, ParseIso, Ordinal(2024, 2, 10));
  }
}
