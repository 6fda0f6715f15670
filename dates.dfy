/** The date arithmetic of `Datetime_Handler`: the proleptic Gregorian
    calendar with Python's day ordinals (0001-01-01 is day 1, a Monday), the
    local date of a UTC offset at a given instant, the starts of the current
    week, month and year, "DD.MM.YYYY" dates and "+HH:MM" offsets. */
module Dates {
  import opened Wrappers
  import opened Text

  datatype Date = Date(year: int, month: int, day: int)

  predicate IsLeap(y: int) {
    y % 4 == 0 && (y % 100 != 0 || y % 400 == 0)
  }

  function DaysInYear(y: int): int {
    if IsLeap(y) then 366 else 365
  }

  function DaysInMonth(y: int, m: int): int {
    if m == 2 then (if IsLeap(y) then 29 else 28)
    else if m == 4 || m == 6 || m == 9 || m == 11 then 30
    else 31
  }

  /** A real calendar day from year 1 on. */
  predicate ValidDate(d: Date) {
    d.year >= 1 && 1 <= d.month <= 12 && 1 <= d.day <= DaysInMonth(d.year, d.month)
  }

  /** Days in the years before `y`. */
  function DaysBeforeYear(y: int): int
    requires y >= 1
    decreases y
  {
    if y == 1 then 0 else DaysBeforeYear(y - 1) + DaysInYear(y - 1)
  }

  /** The days before year `k + 1` by the leap-year count, the formula
      Python's `date.toordinal` uses. */
  lemma {:induction false} DaysBeforeYearFormula(y: int)
    requires y >= 1
    ensures var k := y - 1; DaysBeforeYear(y) == k * 365 + k / 4 - k / 100 + k / 400
    decreases y
  {
    if y > 1 {
      DaysBeforeYearFormula(y - 1);
      FormulaStep(y - 2);
    }
  }

  lemma FormulaStep(k: int)
    requires k >= 0
    ensures (k + 1) * 365 + (k + 1) / 4 - (k + 1) / 100 + (k + 1) / 400
            == k * 365 + k / 4 - k / 100 + k / 400 + DaysInYear(k + 1)
  {
    assert (k + 1) / 4 == k / 4 + (if (k + 1) % 4 == 0 then 1 else 0);
    assert (k + 1) / 100 == k / 100 + (if (k + 1) % 100 == 0 then 1 else 0);
    assert (k + 1) / 400 == k / 400 + (if (k + 1) % 400 == 0 then 1 else 0);
  }

  /** Days in the months of year `y` before month `m`. */
  function DaysBeforeMonth(y: int, m: int): int
    requires 1 <= m <= 12
  {
    (match m
     case 1 => 0 case 2 => 31 case 3 => 59 case 4 => 90 case 5 => 120 case 6 => 151
     case 7 => 181 case 8 => 212 case 9 => 243 case 10 => 273 case 11 => 304 case _ => 334)
    + (if m > 2 && IsLeap(y) then 1 else 0)
  }

  /** `date.toordinal()`. */
  function Ordinal(d: Date): int
    requires ValidDate(d)
  {
    DaysBeforeYear(d.year) + DaysBeforeMonth(d.year, d.month) + d.day
  }

  /** `date.weekday()`: 0 is Monday, 6 is Sunday. */
  function Weekday(d: Date): int
    requires ValidDate(d)
  {
    (Ordinal(d) + 6) % 7
  }

  lemma YearStep(y: int)
    requires y >= 1
    ensures DaysBeforeYear(y + 1) == DaysBeforeYear(y) + DaysInYear(y)
  {
  }

  lemma MonthStep(y: int, m: int)
    requires 1 <= m <= 11
    ensures DaysBeforeMonth(y, m + 1) == DaysBeforeMonth(y, m) + DaysInMonth(y, m)
  {
  }

  lemma LastMonth(y: int)
    ensures DaysBeforeMonth(y, 12) + DaysInMonth(y, 12) == DaysInYear(y)
  {
  }

  /** The day of a month fits in its year. */
  lemma DayInYear(d: Date)
    requires ValidDate(d)
    ensures 1 <= DaysBeforeMonth(d.year, d.month) + d.day <= DaysInYear(d.year)
  {
  }

  lemma {:induction false} DaysBeforeYearGrows(y1: int, y2: int)
    requires 1 <= y1 <= y2
    ensures DaysBeforeYear(y1) + 365 * (y2 - y1) <= DaysBeforeYear(y2)
    decreases y2 - y1
  {
    if y1 < y2 {
      YearStep(y1);
      DaysBeforeYearGrows(y1 + 1, y2);
    }
  }

  /** Day ordinals start at 1. */
  lemma OrdinalPositive(d: Date)
    requires ValidDate(d)
    ensures Ordinal(d) >= 1
  {
    DayInYear(d);
    DaysBeforeYearGrows(1, d.year);
  }

  // ---------------------------------------------------------------------------
  // From ordinals back to dates
  // ---------------------------------------------------------------------------

  /** The date that is day `n` (counting from 1) of year `y`, found month by
      month from month `m` on, `n` counting from the start of month `m`. */
  function MonthDayOf(y: int, m: int, n: int): (d: Date)
    requires y >= 1 && 1 <= m <= 12 && 1 <= n <= DaysInYear(y) - DaysBeforeMonth(y, m)
    ensures ValidDate(d) && d.year == y
    ensures DaysBeforeMonth(y, d.month) + d.day == DaysBeforeMonth(y, m) + n
    decreases 12 - m
  {
    if n <= DaysInMonth(y, m) then Date(y, m, n)
    else
      LastMonth(y);
      MonthStep(y, m);
      MonthDayOf(y, m + 1, n - DaysInMonth(y, m))
  }

  /** The date that is day `n` (counting from 1) from the start of year `y`. */
  function FromOrdinalIn(y: int, n: int): (d: Date)
    requires y >= 1 && n >= 1
    ensures ValidDate(d) && d.year >= y
    ensures Ordinal(d) == DaysBeforeYear(y) + n
    decreases n
  {
    if n > DaysInYear(y) then
      YearStep(y);
      FromOrdinalIn(y + 1, n - DaysInYear(y))
    else MonthDayOf(y, 1, n)
  }

  /** `date.fromordinal(n)`. */
  function FromOrdinal(n: int): (d: Date)
    requires n >= 1
    ensures ValidDate(d) && Ordinal(d) == n
  {
    FromOrdinalIn(1, n)
  }

  // ---------------------------------------------------------------------------
  // Order
  // ---------------------------------------------------------------------------

  /** Python's `a < b` on dates: year, then month, then day. */
  predicate Before(a: Date, b: Date) {
    a.year < b.year
    || (a.year == b.year && a.month < b.month)
    || (a.year == b.year && a.month == b.month && a.day < b.day)
  }

  /** `a <= b`. */
  predicate NotAfter(a: Date, b: Date) {
    !Before(b, a)
  }

  lemma BeforeOrdinal(a: Date, b: Date)
    requires ValidDate(a) && ValidDate(b) && Before(a, b)
    ensures Ordinal(a) < Ordinal(b)
  {
    if a.year < b.year {
      DayInYear(a);
      YearStep(a.year);
      DaysBeforeYearGrows(a.year + 1, b.year);
    } else if a.month < b.month {
      MonthStep(a.year, a.month);
      var m := a.month + 1;
      while m < b.month
        invariant a.month + 1 <= m <= b.month
        invariant DaysBeforeMonth(a.year, a.month) + DaysInMonth(a.year, a.month) <= DaysBeforeMonth(a.year, m)
      {
        MonthStep(a.year, m);
        m := m + 1;
      }
    }
  }

  /** Comparing dates is comparing their ordinals. */
  lemma OrdinalOrder(a: Date, b: Date)
    requires ValidDate(a) && ValidDate(b)
    ensures Before(a, b) <==> Ordinal(a) < Ordinal(b)
    ensures a == b <==> Ordinal(a) == Ordinal(b)
  {
    if Before(a, b) {
      BeforeOrdinal(a, b);
    } else if Before(b, a) {
      BeforeOrdinal(b, a);
    }
  }

  lemma NotAfterOrdinal(a: Date, b: Date)
    requires ValidDate(a) && ValidDate(b)
    ensures NotAfter(a, b) <==> Ordinal(a) <= Ordinal(b)
  {
    OrdinalOrder(b, a);
  }

  // ---------------------------------------------------------------------------
  // The local date and the start of the current period
  // ---------------------------------------------------------------------------

  /** The ordinal of 1970-01-01, the day the Unix clock starts on. */
  const EpochOrdinal: int := 719163

  lemma EpochIsJanuary1970()
    ensures ValidDate(Date(1970, 1, 1)) && Ordinal(Date(1970, 1, 1)) == EpochOrdinal
  {
    DaysBeforeYearFormula(1970);
  }

  /** Seconds in a day. */
  const DaySeconds: int := 86400

  /** The ordinal of 9999-12-31, the last day Python's dates can hold. */
  const MaxOrdinal: int := 3652059

  lemma MaxOrdinalIsLastDay()
    ensures ValidDate(Date(9999, 12, 31)) && Ordinal(Date(9999, 12, 31)) == MaxOrdinal
  {
    DaysBeforeYearFormula(9999);
  }

  /** Dates up to `MaxOrdinal` have at most four-digit years. */
  lemma YearBound(d: Date)
    requires ValidDate(d) && Ordinal(d) <= MaxOrdinal
    ensures d.year <= 9999
  {
    if d.year > 9999 {
      MaxOrdinalIsLastDay();
      OrdinalOrder(Date(9999, 12, 31), d);
    }
  }

  /** The instant `now` (Unix seconds) shifted by `offset` seconds falls
      between 0001-01-01 and 9999-12-31, the dates Python can represent. */
  predicate InCalendar(now: int, offset: int) {
    1 <= EpochOrdinal + (now + offset) / DaySeconds <= MaxOrdinal
  }

  /** `datetime.now(timezone(timedelta(seconds=offset))).date()` with the
      clock reading `now` Unix seconds: the calendar day, at that offset,
      that contains the instant. */
  function LocalDate(now: int, offset: int): (d: Date)
    requires InCalendar(now, offset)
    ensures ValidDate(d) && d.year <= 9999
    ensures (Ordinal(d) - EpochOrdinal) * DaySeconds <= now + offset < (Ordinal(d) - EpochOrdinal + 1) * DaySeconds
  {
    var d := FromOrdinal(EpochOrdinal + (now + offset) / DaySeconds);
    YearBound(d);
    d
  }

  /** Clock readings from 1970-01-01 up to a day before year 10000 begins:
      at every offset of less than a day each side, the local date is one
      Python can hold. */
  predicate ClockOk(now: int) {
    0 <= now < 253402214400
  }

  lemma ClockInCalendar(now: int, offset: int)
    requires ClockOk(now) && -DaySeconds < offset < DaySeconds
    ensures InCalendar(now, offset)
  {
  }

  /** Among the ordinals up to `n`, `n - (n + 6) % 7` is the latest one that
      falls on a Monday. */
  lemma LatestMondayOrdinal(n: int, x: int)
    requires n >= 1 && x <= n && (x + 6) % 7 == 0
    ensures (n - (n + 6) % 7 + 6) % 7 == 0
    ensures x <= n - (n + 6) % 7
  {
    var q := (n + 6) / 7;
    var p := (x + 6) / 7;
    assert n + 6 == 7 * q + (n + 6) % 7;
    assert x + 6 == 7 * p;
    assert n - (n + 6) % 7 + 6 == 7 * q;
  }

  /** `get_start_of_week`: the local date minus its weekday. It is the
      latest Monday not after `d`, at most six days before it. */
  function StartOfWeek(d: Date): (w: Date)
    requires ValidDate(d)
    ensures ValidDate(w) && Weekday(w) == 0 && NotAfter(w, d)
    ensures Ordinal(d) - 6 <= Ordinal(w) <= Ordinal(d)
    ensures forall e :: ValidDate(e) && Weekday(e) == 0 && NotAfter(e, d) ==> NotAfter(e, w)
  {
    var n := Ordinal(d);
    OrdinalPositive(d);
    MondayOrdinal(n);
    var w := FromOrdinal(n - (n + 6) % 7);
    MondayLatest(d, w);
    w
  }

  /** `n - (n + 6) % 7` is a Monday's ordinal at most six days back. */
  lemma MondayOrdinal(n: int)
    requires n >= 1
    ensures var m := n - (n + 6) % 7; 1 <= m <= n && n - 6 <= m && (m + 6) % 7 == 0
  {
    LatestMondayOrdinal(n, 1);
  }

  /** That Monday is the latest one not after `d`. */
  lemma MondayLatest(d: Date, w: Date)
    requires ValidDate(d) && ValidDate(w) && Ordinal(w) == Ordinal(d) - (Ordinal(d) + 6) % 7
    ensures NotAfter(w, d)
    ensures forall e :: ValidDate(e) && Weekday(e) == 0 && NotAfter(e, d) ==> NotAfter(e, w)
  {
    OrdinalOrder(d, w);
    forall e | ValidDate(e) && Weekday(e) == 0 && NotAfter(e, d) ensures NotAfter(e, w) {
      MondayBound(d, w, e);
    }
  }

  lemma MondayBound(d: Date, w: Date, e: Date)
    requires ValidDate(d) && ValidDate(w) && ValidDate(e)
    requires Ordinal(w) == Ordinal(d) - (Ordinal(d) + 6) % 7
    requires Weekday(e) == 0 && NotAfter(e, d)
    ensures NotAfter(e, w)
  {
    NotAfterOrdinal(e, d);
    OrdinalPositive(d);
    LatestMondayOrdinal(Ordinal(d), Ordinal(e));
    NotAfterOrdinal(e, w);
  }

  /** `get_start_of_month`: the first day of the month of `d`. */
  function StartOfMonth(d: Date): (s: Date)
    requires ValidDate(d)
    ensures ValidDate(s) && NotAfter(s, d)
    ensures s.year == d.year && s.month == d.month
    ensures forall e :: ValidDate(e) && e.year == d.year && e.month == d.month ==> NotAfter(s, e)
  {
    d.(day := 1)
  }

  /** `get_start_of_year`: the first day of the year of `d`. */
  function StartOfYear(d: Date): (s: Date)
    requires ValidDate(d)
    ensures ValidDate(s) && NotAfter(s, d) && s.year == d.year
    ensures forall e :: ValidDate(e) && e.year == d.year ==> NotAfter(s, e)
  {
    Date(d.year, 1, 1)
  }

  // ---------------------------------------------------------------------------
  // "DD.MM.YYYY"
  // ---------------------------------------------------------------------------

  function Digit(n: int): char
    requires 0 <= n <= 9
  {
    ('0' as int + n) as char
  }

  /** `n` in two digits, zero-padded. */
  function Pad2(n: int): string
    requires 0 <= n <= 99
  {
    [Digit(n / 10), Digit(n % 10)]
  }

  /** `n` in four digits, zero-padded. */
  function Pad4(n: int): string
    requires 0 <= n <= 9999
  {
    Pad2(n / 100) + Pad2(n % 100)
  }

  /** `d.strftime("%d.%m.%Y")`. */
  function FormatDate(d: Date): string
    requires ValidDate(d) && d.year <= 9999
  {
    Pad2(d.day) + "." + Pad2(d.month) + "." + Pad4(d.year)
  }

  /** `datetime.strptime(s, "%d.%m.%Y").date()`, taken strictly: two-digit
      day, two-digit month, four-digit year, and a real calendar day;
      anything else is a `ValueError`, here `None`. */
  function ParseDate(s: string): Option<Date> {
    if |s| == 10 && s[2] == '.' && s[5] == '.'
       && AllDigits(s[0..2]) && AllDigits(s[3..5]) && AllDigits(s[6..10]) then
      var d := Date(DigitsValue(s[6..10]), DigitsValue(s[3..5]), DigitsValue(s[0..2]));
      if ValidDate(d) then Some(d) else None
    else None
  }

  function DigitOf(c: char): int {
    c as int - '0' as int
  }

  lemma DigitsValue2(t: string)
    requires |t| == 2 && AllDigits(t)
    ensures DigitsValue(t) == DigitOf(t[0]) * 10 + DigitOf(t[1])
  {
    var h := t[..1];
    assert h[..|h| - 1] == [];
    assert DigitsValue(h) == DigitsValue([]) * 10 + DigitOf(t[0]);
    assert t[..|t| - 1] == h;
  }

  lemma DigitsValue4(t: string)
    requires |t| == 4 && AllDigits(t)
    ensures DigitsValue(t) == DigitsValue(t[..2]) * 100 + DigitOf(t[2]) * 10 + DigitOf(t[3])
  {
    assert t[..3][..2] == t[..2];
    assert t[..3][2] == t[2];
  }

  lemma Pad2Digits(n: int)
    requires 0 <= n <= 99
    ensures AllDigits(Pad2(n)) && DigitsValue(Pad2(n)) == n
  {
    DigitsValue2(Pad2(n));
  }

  lemma DigitsPad2(t: string)
    requires |t| == 2 && AllDigits(t)
    ensures DigitsValue(t) <= 99 && Pad2(DigitsValue(t)) == t
  {
    DigitsValue2(t);
    var v := DigitsValue(t);
    assert v / 10 == DigitOf(t[0]) && v % 10 == DigitOf(t[1]);
  }

  lemma Pad4Digits(n: int)
    requires 0 <= n <= 9999
    ensures AllDigits(Pad4(n)) && DigitsValue(Pad4(n)) == n
  {
    var p := Pad4(n);
    assert AllDigits(p);
    DigitsValue4(p);
    assert p[..2] == Pad2(n / 100);
    Pad2Digits(n / 100);
  }

  lemma DigitsPad4(t: string)
    requires |t| == 4 && AllDigits(t)
    ensures DigitsValue(t) <= 9999 && Pad4(DigitsValue(t)) == t
  {
    DigitsValue4(t);
    DigitsPad2(t[..2]);
    DigitsValue2(t[..2]);
    var v := DigitsValue(t);
    var hi := DigitsValue(t[..2]);
    assert v / 100 == hi && v % 100 == DigitOf(t[2]) * 10 + DigitOf(t[3]);
    DigitsPad2(t[2..]);
    DigitsValue2(t[2..]);
    assert t == t[..2] + t[2..];
  }

  /** Parsing a formatted date gives the date back. */
  lemma ParseFormat(d: Date)
    requires ValidDate(d) && d.year <= 9999
    ensures ParseDate(FormatDate(d)) == Some(d)
  {
    var s := FormatDate(d);
    Pad2Digits(d.day);
    Pad2Digits(d.month);
    Pad4Digits(d.year);
    assert s[0..2] == Pad2(d.day);
    assert s[3..5] == Pad2(d.month);
    assert s[6..10] == Pad4(d.year);
  }

  /** A text that parses is the formatting of the date it parses to. */
  lemma FormatParse(s: string)
    requires ParseDate(s).Some?
    ensures ParseDate(s).value.year <= 9999 && FormatDate(ParseDate(s).value) == s
  {
    DigitsPad2(s[0..2]);
    DigitsPad2(s[3..5]);
    DigitsPad4(s[6..10]);
    assert s == s[0..2] + "." + s[3..5] + "." + s[6..10];
  }

  /** `validate_date(offset, s)` at the instant `now`: `s` parses and the
      date is not after the local date. */
  function ValidateDate(now: int, offset: int, s: string): bool
    requires InCalendar(now, offset)
  {
    match ParseDate(s)
    case None => false
    case Some(d) => NotAfter(d, LocalDate(now, offset))
  }

  /** validate_date accepts exactly the formatted real dates up to the local
      date: an accepted text is one of them ... */
  lemma ValidateDateSound(now: int, offset: int, s: string)
    requires InCalendar(now, offset) && ValidateDate(now, offset, s)
    ensures ParseDate(s).Some?
    ensures var d := ParseDate(s).value;
      ValidDate(d) && d.year <= 9999 && FormatDate(d) == s && NotAfter(d, LocalDate(now, offset))
  {
    FormatParse(s);
  }

  /** ... and each of them is accepted. */
  lemma ValidateDateComplete(now: int, offset: int, d: Date)
    requires InCalendar(now, offset) && ValidDate(d) && d.year <= 9999
    requires NotAfter(d, LocalDate(now, offset))
    ensures ValidateDate(now, offset, FormatDate(d))
  {
    ParseFormat(d);
  }

  // ---------------------------------------------------------------------------
  // "+HH:MM" offsets
  // ---------------------------------------------------------------------------

  /** `s.find(c)`: the first index of `c`, if any. */
  function Find(s: string, c: char): (r: Option<nat>)
    ensures r.Some? ==> r.value < |s| && s[r.value] == c && c !in s[..r.value]
    ensures r.None? ==> c !in s
  {
    if s == [] then None
    else if s[0] == c then Some(0)
    else
      match Find(s[1..], c)
      case None => None
      case Some(i) =>
        assert s[..i + 1] == [s[0]] + s[1..][..i];
        Some(i + 1)
  }

  /** `validate_utc_offset(s)`: a sign, then hours 0..23 before the first
      ":" and minutes 0..59 after it, each read by `int()`. The source reads
      `s[0]` first, so it needs a non-empty text. */
  function ValidateUtcOffset(s: string): bool
    requires |s| >= 1
  {
    (s[0] == '+' || s[0] == '-')
    && match Find(s, ':')
       case None => false
       case Some(c) =>
         c >= 1
         && var hours := ParseInt(s[1..c]);
         var minutes := ParseInt(s[c + 1..]);
         hours.Some? && 0 <= hours.value <= 23 && minutes.Some? && 0 <= minutes.value <= 59
  }

  /** `utc_offset_string_to_int(s)` for an accepted offset: the signed
      number of seconds, never a whole day or more. */
  function UtcOffsetSeconds(s: string): (r: int)
    requires |s| >= 1 && ValidateUtcOffset(s)
    ensures -86340 <= r <= 86340
    ensures s[0] == '+' ==> r >= 0
    ensures s[0] == '-' ==> r <= 0
  {
    var c := Find(s, ':').value;
    var seconds := ParseInt(s[1..c]).value * 3600 + ParseInt(s[c + 1..]).value * 60;
    if s[0] == '-' then -seconds else seconds
  }

  /** The offset "+HH:MM" (or "-HH:MM") for hours `h` and minutes `m`. */
  function FormatUtcOffset(negative: bool, h: int, m: int): string
    requires 0 <= h <= 23 && 0 <= m <= 59
  {
    (if negative then "-" else "+") + Pad2(h) + ":" + Pad2(m)
  }

  /** Every well-formed offset is accepted and converts to its seconds. */
  lemma UtcOffsetRoundTrip(negative: bool, h: int, m: int)
    requires 0 <= h <= 23 && 0 <= m <= 59
    ensures var s := FormatUtcOffset(negative, h, m);
      |s| >= 1 && ValidateUtcOffset(s)
      && UtcOffsetSeconds(s) == (if negative then -(h * 3600 + m * 60) else h * 3600 + m * 60)
  {
    var s := FormatUtcOffset(negative, h, m);
    Pad2Digits(h);
    Pad2Digits(m);
    assert s[1..3] == Pad2(h);
    assert s[4..] == Pad2(m);
    assert ':' !in s[..3];
    assert Find(s, ':') == Some(3);
  }
}
