/** Calendar dates of Python's `datetime.date`: validity, the proleptic
    Gregorian day ordinal (`date.toordinal()`), and the extended ISO 8601
    calendar-date form `YYYY-MM-DD` (section 4.1.2.2 of ISO 8601:2004) that
    `date.isoformat()` writes and `datetime.fromisoformat` reads. */
module Calendar {
  import opened Errors
  import opened Text

  datatype Date = Date(year: int, month: int, day: int)

  /** `datetime.MINYEAR` and `datetime.MAXYEAR`. */
  const MinYear := 1
  const MaxYear := 9999

  predicate IsLeap(y: int) {
    y % 4 == 0 && (y % 100 != 0 || y % 400 == 0)
  }

  function DaysInMonth(y: int, m: int): int
    requires 1 <= m <= 12
  {
    if m == 2 then (if IsLeap(y) then 29 else 28)
    else if m == 4 || m == 6 || m == 9 || m == 11 then 30
    else 31
  }

  function DaysInYear(y: int): int {
    if IsLeap(y) then 366 else 365
  }

  /** The dates `datetime.date` can represent. */
  predicate Valid(d: Date) {
    MinYear <= d.year <= MaxYear && 1 <= d.month <= 12 && 1 <= d.day <= DaysInMonth(d.year, d.month)
  }

  /** Days in the years before `y`, counted from year 1. */
  function DaysBeforeYear(y: int): int {
    var p := y - 1;
    p * 365 + p / 4 - p / 100 + p / 400
  }

  /** Days in the months of year `y` before month `m`. */
  function DaysBeforeMonth(y: int, m: int): int
    requires 1 <= m <= 12
  {
    [0, 31, 59, 90, 120, 151, 181, 212, 243, 273, 304, 334][m - 1] + (if m > 2 && IsLeap(y) then 1 else 0)
  }

  /** `date.toordinal()`: 0001-01-01 is day 1. */
  function Ordinal(d: Date): int
    requires Valid(d)
  {
    DaysBeforeYear(d.year) + DaysBeforeMonth(d.year, d.month) + d.day
  }

  /** Chronological order, which is also the order of the `YYYY-MM-DD` strings. */
  predicate Before(a: Date, b: Date) {
    || a.year < b.year
    || (a.year == b.year && a.month < b.month)
    || (a.year == b.year && a.month == b.month && a.day < b.day)
  }

  lemma YearStep(y: int)
    requires y >= 1
    ensures DaysBeforeYear(y + 1) == DaysBeforeYear(y) + DaysInYear(y)
  {
    QuotientStep4(y);
    QuotientStep100(y);
    QuotientStep400(y);
  }

  /** Stepping a year adds one to the count of multiples of 4 passed exactly
      when the year is one; likewise for 100 and 400 below. */
  lemma QuotientStep4(y: int)
    ensures y / 4 == (y - 1) / 4 + (if y % 4 == 0 then 1 else 0)
  {
  }

  lemma QuotientStep100(y: int)
    ensures y / 100 == (y - 1) / 100 + (if y % 100 == 0 then 1 else 0)
  {
  }

  lemma QuotientStep400(y: int)
    ensures y / 400 == (y - 1) / 400 + (if y % 400 == 0 then 1 else 0)
  {
  }

  lemma {:induction false} YearsApart(y1: int, y2: int)
    requires 1 <= y1 < y2
    ensures DaysBeforeYear(y1) + DaysInYear(y1) <= DaysBeforeYear(y2)
    decreases y2 - y1
  {
    YearStep(y1);
    if y1 + 1 < y2 {
      YearsApart(y1 + 1, y2);
    }
  }

  lemma MonthsApart(y: int, m1: int, m2: int)
    requires 1 <= m1 < m2 <= 12
    ensures DaysBeforeMonth(y, m1) + DaysInMonth(y, m1) <= DaysBeforeMonth(y, m2)
  {
  }

  lemma WithinYear(d: Date)
    requires Valid(d)
    ensures DaysBeforeMonth(d.year, d.month) + d.day <= DaysInYear(d.year)
  {
  }

  lemma OrdinalIncreasing(a: Date, b: Date)
    requires Valid(a) && Valid(b) && Before(a, b)
    ensures Ordinal(a) < Ordinal(b)
  {
    if a.year < b.year {
      WithinYear(a);
      YearsApart(a.year, b.year);
    } else if a.month < b.month {
      MonthsApart(a.year, a.month, b.month);
    }
  }

  /** The ordinal preserves and reflects chronological order, so the latest
      date of a collection is the one with the largest ordinal, and distinct
      dates have distinct ordinals. */
  lemma OrdinalOrder(a: Date, b: Date)
    requires Valid(a) && Valid(b)
    ensures Before(a, b) <==> Ordinal(a) < Ordinal(b)
    ensures a == b <==> Ordinal(a) == Ordinal(b)
  {
    if Before(a, b) {
      OrdinalIncreasing(a, b);
    } else if Before(b, a) {
      OrdinalIncreasing(b, a);
    }
  }

  /** `date.max.toordinal()`: the ordinal of 9999-12-31. */
  const LastOrdinal := 3652059

  /** No valid date lies past 9999-12-31, whose ordinal is `LastOrdinal`;
      only that date reaches it. */
  lemma LastOrdinalBound(d: Date)
    requires Valid(d)
    ensures Ordinal(Date(MaxYear, 12, 31)) == LastOrdinal
    ensures Ordinal(d) <= LastOrdinal
    ensures Ordinal(d) == LastOrdinal <==> d == Date(MaxYear, 12, 31)
  {
    OrdinalOrder(d, Date(MaxYear, 12, 31));
  }

  function Pow10(w: nat): nat {
    if w == 0 then 1 else 10 * Pow10(w - 1)
  }

  /** `n` written with exactly `width` digits, zero-padded on the left (`%0*d`). */
  function Pad(n: nat, width: nat): (r: string)
    ensures |r| == width && AllDigits(r)
  {
    if width == 0 then "" else Pad(n / 10, width - 1) + [DigitChar(n % 10)]
  }

  lemma {:induction false} PadValue(n: nat, width: nat)
    requires n < Pow10(width)
    ensures DigitsValue(Pad(n, width)) == n
  {
    if width > 0 {
      PadValue(n / 10, width - 1);
      var r := Pad(n, width);
      assert r[..width - 1] == Pad(n / 10, width - 1);
    }
  }

  lemma {:induction false} PadOfDigits(s: string)
    requires AllDigits(s)
    ensures Pad(DigitsValue(s), |s|) == s
    decreases |s|
  {
    if |s| > 0 {
      var init := s[..|s| - 1];
      PadOfDigits(init);
      var v := DigitsValue(s);
      assert v / 10 == DigitsValue(init);
      assert DigitChar(v % 10) == s[|s| - 1];
      assert s == init + [s[|s| - 1]];
    }
  }

  /** `date.isoformat()`: `YYYY-MM-DD`. */
  function IsoFormat(d: Date): (r: string)
    requires Valid(d)
    ensures |r| == 10
  {
    Pad(d.year, 4) + "-" + Pad(d.month, 2) + "-" + Pad(d.day, 2)
  }

  /** `date.fromisoformat(s)` for the extended calendar form: exactly ten
      characters `YYYY-MM-DD` naming a valid date, None where Python raises. */
  function ParseIsoDate(s: string): (r: Option<Date>)
    ensures r.Some? ==> Valid(r.value)
  {
    if |s| == 10 && s[4] == '-' && s[7] == '-'
       && AllDigits(s[..4]) && AllDigits(s[5..7]) && AllDigits(s[8..])
    then
      var d := Date(DigitsValue(s[..4]), DigitsValue(s[5..7]), DigitsValue(s[8..]));
      if Valid(d) then Some(d) else None
    else None
  }

  /** Writing a date and reading it back gives the date. */
  lemma IsoDateRoundTrip(d: Date)
    requires Valid(d)
    ensures ParseIsoDate(IsoFormat(d)) == Some(d)
  {
    var s := IsoFormat(d);
    assert s[..4] == Pad(d.year, 4);
    assert s[5..7] == Pad(d.month, 2);
    assert s[8..] == Pad(d.day, 2);
    assert Pow10(4) == 10000 && Pow10(2) == 100;
    PadValue(d.year, 4);
    PadValue(d.month, 2);
    PadValue(d.day, 2);
  }

  /** Reading a date and writing it back gives the same text: every accepted
      string is already in canonical form. */
  lemma IsoFormatOfParse(s: string)
    requires ParseIsoDate(s).Some?
    ensures IsoFormat(ParseIsoDate(s).value) == s
  {
    PadOfDigits(s[..4]);
    PadOfDigits(s[5..7]);
    PadOfDigits(s[8..]);
    assert s == s[..4] + "-" + s[5..7] + "-" + s[8..];
  }

  /** The date part of `datetime.fromisoformat(ts)` for a timestamp written as
      `YYYY-MM-DD`, optionally followed by a one-character separator and a time. */
  function TimestampDate(ts: string): Option<Date> {
    if |ts| == 10 then ParseIsoDate(ts)
    else if |ts| >= 12 then ParseIsoDate(ts[..10])
    else None
  }

  /** `datetime.fromisoformat(ts).date().isoformat()`, the reduction the
      decklist validators apply to both timestamps. */
  function TruncateToDate(ts: string): Option<string> {
    match TimestampDate(ts)
    case None => None
    case Some(d) => Some(IsoFormat(d))
  }

  /** Truncation keeps exactly the leading `YYYY-MM-DD` of the timestamp, and
      truncating its result again changes nothing. */
  lemma TruncateToDateIdempotent(ts: string)
    ensures TruncateToDate(ts).Some? ==> |ts| >= 10 && TruncateToDate(ts).value == ts[..10]
    ensures TruncateToDate(ts).Some? ==> TruncateToDate(TruncateToDate(ts).value) == TruncateToDate(ts)
  {
    if TruncateToDate(ts).Some? {
      var head := if |ts| == 10 then ts else ts[..10];
      assert head == ts[..10];
      IsoFormatOfParse(head);
      IsoDateRoundTrip(TimestampDate(ts).value);
    }
  }
}
