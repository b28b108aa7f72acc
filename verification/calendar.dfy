/** Civil dates as the scraper reads them: `datetime.strptime(token,
    "%d/%m/%Y")` followed by `.timestamp()`. The proleptic Gregorian day
    count follows Python's `date.toordinal` (0001-01-01 is day 1), and the
    timestamp counts seconds from 1970-01-01 00:00. */
module Calendar {
  import opened Results
  import opened Text

  datatype Date = Date(year: int, month: int, day: int)

  const MIN_YEAR := 1
  const MAX_YEAR := 9999
  const SECONDS_PER_DAY := 86400
  /** `date(1970, 1, 1).toordinal()` */
  const EPOCH_ORDINAL := 719163

  predicate IsLeap(year: int) {
    year % 4 == 0 && (year % 100 != 0 || year % 400 == 0)
  }

  function DaysInYear(year: int): int {
    if IsLeap(year) then 366 else 365
  }

  function DaysInMonth(year: int, month: int): (r: int)
    requires 1 <= month <= 12
    ensures 28 <= r <= 31
    ensures r == 29 <==> month == 2 && IsLeap(year)
  {
    if month == 2 then (if IsLeap(year) then 29 else 28)
    else if month == 4 || month == 6 || month == 9 || month == 11 then 30
    else 31
  }

  /** The dates `datetime` accepts: years 1 to 9999, and a day that exists
      in that month of that year. */
  predicate Valid(d: Date)
    ensures Valid(d) ==> 1 <= d.day <= 31
    ensures Valid(d) && d.month == 2 && d.day == 29 ==> IsLeap(d.year)
  {
    && MIN_YEAR <= d.year <= MAX_YEAR
    && 1 <= d.month <= 12
    && 1 <= d.day <= DaysInMonth(d.year, d.month)
  }

  /** Calendar order: by year, then month, then day. */
  predicate Before(a: Date, b: Date) {
    || a.year < b.year
    || (a.year == b.year && a.month < b.month)
    || (a.year == b.year && a.month == b.month && a.day < b.day)
  }

  /** Days in the years before `year`, counted from year 1 (closed form). */
  function DaysBeforeYear(year: int): int
    requires year >= 1
  {
    var y := year - 1;
    y * 365 + y / 4 - y / 100 + y / 400
  }

  /** Days in the months before `month` of `year` (table plus leap day). */
  function DaysBeforeMonth(year: int, month: int): int
    requires 1 <= month <= 12
  {
    var table := [0, 0, 31, 59, 90, 120, 151, 181, 212, 243, 273, 304, 334];
    table[month] + (if month > 2 && IsLeap(year) then 1 else 0)
  }

  /** The same quantity by definition: the sum of the lengths of the
      months before `month`. */
  function MonthsLength(year: int, month: int): int
    requires 1 <= month <= 13
  {
    if month == 1 then 0 else MonthsLength(year, month - 1) + DaysInMonth(year, month - 1)
  }

  /** `date.toordinal()`: the day number of `d`, 0001-01-01 being day 1. */
  function Ordinal(d: Date): (r: int)
    requires Valid(d)
    ensures r == DaysBeforeYear(d.year) + MonthsLength(d.year, d.month) + d.day
    ensures r >= 1
  {
    DaysBeforeMonthIsSum(d.year, d.month);
    DaysBeforeYear(d.year) + DaysBeforeMonth(d.year, d.month) + d.day
  }

  /** `datetime(year, month, day).timestamp()` at midnight, in seconds. */
  function Timestamp(d: Date): (r: int)
    requires Valid(d)
    ensures r % SECONDS_PER_DAY == 0
    ensures r / SECONDS_PER_DAY == Ordinal(d) - EPOCH_ORDINAL
  {
    (Ordinal(d) - EPOCH_ORDINAL) * SECONDS_PER_DAY
  }

  /** The calendar day after `d`. */
  function NextDay(d: Date): Date
    requires Valid(d)
  {
    if d.day < DaysInMonth(d.year, d.month) then Date(d.year, d.month, d.day + 1)
    else if d.month < 12 then Date(d.year, d.month + 1, 1)
    else Date(d.year + 1, 1, 1)
  }

  /** Going from `year - 1` to `year`, the quotient by a divisor grows
      exactly when `year` is a multiple of it. */
  lemma DivStep4(year: int)
    ensures year / 4 - (year - 1) / 4 == (if year % 4 == 0 then 1 else 0)
  {
  }

  lemma DivStep100(year: int)
    ensures year / 100 - (year - 1) / 100 == (if year % 100 == 0 then 1 else 0)
  {
  }

  lemma DivStep400(year: int)
    ensures year / 400 - (year - 1) / 400 == (if year % 400 == 0 then 1 else 0)
  {
  }

  /** A multiple of 100 is a multiple of 4, and a multiple of 400 one of 100. */
  lemma MultipleOf100(year: int)
    requires year % 100 == 0
    ensures year % 4 == 0
  {
    var k := year / 100;
    assert year == 4 * (25 * k);
  }

  lemma MultipleOf400(year: int)
    requires year % 400 == 0
    ensures year % 100 == 0
  {
    var k := year / 400;
    assert year == 100 * (4 * k);
  }

  /** The closed form adds exactly one year's length per year. */
  lemma DaysBeforeYearStep(year: int)
    requires year >= 1
    ensures DaysBeforeYear(year + 1) == DaysBeforeYear(year) + DaysInYear(year)
  {
    var y := year - 1;
    DivStep4(year);
    DivStep100(year);
    DivStep400(year);
    var d4, d100, d400 := year / 4 - y / 4, year / 100 - y / 100, year / 400 - y / 400;
    assert DaysBeforeYear(year + 1) - DaysBeforeYear(year) == 365 + d4 - d100 + d400;
    if year % 100 == 0 {
      MultipleOf100(year);
    }
    if year % 400 == 0 {
      MultipleOf400(year);
    }
  }

  /** The month table agrees with summing the month lengths. */
  lemma {:induction false} DaysBeforeMonthIsSum(year: int, month: int)
    requires 1 <= month <= 12
    ensures DaysBeforeMonth(year, month) == MonthsLength(year, month)
    decreases month
  {
    if month > 1 {
      DaysBeforeMonthIsSum(year, month - 1);
    }
  }

  /** December ends the year: all twelve months make up the year's length. */
  lemma MonthsMakeYear(year: int)
    ensures MonthsLength(year, 13) == DaysInYear(year)
  {
    DaysBeforeMonthIsSum(year, 12);
  }

  /** Month lengths are positive, so the sum grows with the month. */
  lemma {:induction false} MonthsLengthMonotone(year: int, m1: int, m2: int)
    requires 1 <= m1 <= m2 <= 13
    ensures MonthsLength(year, m1) + (m2 - m1) * 28 <= MonthsLength(year, m2)
    decreases m2 - m1
  {
    if m1 < m2 {
      MonthsLengthMonotone(year, m1 + 1, m2);
    }
  }

  /** Year lengths are positive, so the day count grows with the year. */
  lemma {:induction false} DaysBeforeYearMonotone(y1: int, y2: int)
    requires 1 <= y1 <= y2
    ensures DaysBeforeYear(y1) + (y2 - y1) * 365 <= DaysBeforeYear(y2)
    decreases y2 - y1
  {
    if y1 < y2 {
      DaysBeforeYearStep(y1);
      DaysBeforeYearMonotone(y1 + 1, y2);
    }
  }

  /** A valid date's day number lies within its month and within its year. */
  lemma OrdinalWithin(d: Date)
    requires Valid(d)
    ensures DaysBeforeYear(d.year) + MonthsLength(d.year, d.month) < Ordinal(d)
    ensures Ordinal(d) <= DaysBeforeYear(d.year) + MonthsLength(d.year, d.month + 1)
    ensures Ordinal(d) <= DaysBeforeYear(d.year + 1)
  {
    DaysBeforeMonthIsSum(d.year, d.month);
    MonthsLengthMonotone(d.year, d.month + 1, 13);
    MonthsMakeYear(d.year);
    DaysBeforeYearStep(d.year);
  }

  /** A later date has a larger day number. */
  lemma OrdinalIncreasing(a: Date, b: Date)
    requires Valid(a) && Valid(b) && Before(a, b)
    ensures Ordinal(a) < Ordinal(b)
  {
    OrdinalWithin(a);
    OrdinalWithin(b);
    if a.year < b.year {
      DaysBeforeYearMonotone(a.year + 1, b.year);
    } else if a.month < b.month {
      MonthsLengthMonotone(a.year, a.month + 1, b.month);
    }
  }

  /** The day number orders dates exactly as the calendar does, and no two
      dates share a day number. */
  lemma OrdinalOrder(a: Date, b: Date)
    requires Valid(a) && Valid(b)
    ensures Before(a, b) <==> Ordinal(a) < Ordinal(b)
    ensures a == b <==> Ordinal(a) == Ordinal(b)
  {
    if Before(a, b) {
      OrdinalIncreasing(a, b);
    } else if Before(b, a) {
      OrdinalIncreasing(b, a);
    }
  }

  /** The next calendar day is the next day number. */
  lemma NextDayOrdinal(d: Date)
    requires Valid(d)
    requires d.year < MAX_YEAR || d.month < 12 || d.day < 31
    ensures Valid(NextDay(d))
    ensures Ordinal(NextDay(d)) == Ordinal(d) + 1
  {
    DaysBeforeMonthIsSum(d.year, d.month);
    if d.day == DaysInMonth(d.year, d.month) {
      if d.month < 12 {
        DaysBeforeMonthIsSum(d.year, d.month + 1);
      } else {
        MonthsMakeYear(d.year);
        DaysBeforeYearStep(d.year);
      }
    }
  }

  /** 1970-01-01, the start of timestamps, is day 719163. */
  lemma EpochIsDayZero()
    ensures Valid(Date(1970, 1, 1))
    ensures Ordinal(Date(1970, 1, 1)) == EPOCH_ORDINAL
    ensures Timestamp(Date(1970, 1, 1)) == 0
  {
  }

  /** Timestamps order dates as the calendar does, one day apart per day. */
  lemma TimestampOrder(a: Date, b: Date)
    requires Valid(a) && Valid(b)
    ensures Before(a, b) <==> Timestamp(a) < Timestamp(b)
    ensures a == b <==> Timestamp(a) == Timestamp(b)
    ensures (a.year < MAX_YEAR || a.month < 12 || a.day < 31) ==>
      Timestamp(NextDay(a)) == Timestamp(a) + SECONDS_PER_DAY
  {
    OrdinalOrder(a, b);
    if a.year < MAX_YEAR || a.month < 12 || a.day < 31 {
      NextDayOrdinal(a);
    }
  }

  // ---------------------------------------------------------------------
  // Parsing the `%d/%m/%Y` token

  predicate IsDigit(c: char) { '0' <= c <= '9' }

  predicate AllDigits(s: string) {
    forall i :: 0 <= i < |s| ==> IsDigit(s[i])
  }

  function DigitValue(c: char): int
    requires IsDigit(c)
  {
    c as int - '0' as int
  }

  function Digit(n: int): (c: char)
    requires 0 <= n <= 9
    ensures IsDigit(c) && DigitValue(c) == n
  {
    ('0' as int + n) as char
  }

  /** `int(s)` for a string of ASCII digits. */
  function DigitsValue(s: string): nat
    requires AllDigits(s)
  {
    if |s| == 0 then 0 else DigitsValue(s[..|s| - 1]) * 10 + DigitValue(s[|s| - 1])
  }

  /** What `%d` matches (`3[01]|[12]\d|0[1-9]|[1-9]`, when followed by `/`):
      one digit from 1 to 9, or two digits worth 1 to 31. */
  predicate DayField(s: string) {
    || (|s| == 1 && '1' <= s[0] <= '9')
    || (|s| == 2 && AllDigits(s) && 1 <= DigitsValue(s) <= 31)
  }

  /** What `%m` matches (`1[0-2]|0[1-9]|[1-9]`, when followed by `/`):
      one digit from 1 to 9, or two digits worth 1 to 12. */
  predicate MonthField(s: string) {
    || (|s| == 1 && '1' <= s[0] <= '9')
    || (|s| == 2 && AllDigits(s) && 1 <= DigitsValue(s) <= 12)
  }

  /** What `%Y` matches (`\d\d\d\d`) when nothing may follow it. */
  predicate YearField(s: string) {
    |s| == 4 && AllDigits(s)
  }

  /** `datetime.strptime(token, "%d/%m/%Y")`: `None` where Python raises
      `ValueError` (no match, text left over, or a date that does not exist). */
  function ParseDate(token: string): (r: Option<Date>)
    ensures r.Some? ==> Valid(r.value)
    ensures r.Some? ==> Count(token, '/') == 2
  {
    var parts := Split(token, '/');
    if |parts| != 3 || !DayField(parts[0]) || !MonthField(parts[1]) || !YearField(parts[2]) then None
    else
      var d := Date(DigitsValue(parts[2]), DigitsValue(parts[1]), DigitsValue(parts[0]));
      SplitJoin(token, '/');
      if Valid(d) then Some(d) else None
  }

  function Pow10(k: nat): (p: nat)
    ensures p >= 1
  {
    if k == 0 then 1 else 10 * Pow10(k - 1)
  }

  /** `n` written with exactly `width` digits, zero-padded in front. */
  function Pad(n: nat, width: nat): (s: string)
    requires n < Pow10(width)
    ensures |s| == width && AllDigits(s) && DigitsValue(s) == n
    decreases width
  {
    if width == 0 then ""
    else
      var init := Pad(n / 10, width - 1);
      var s := init + [Digit(n % 10)];
      assert s[..|s| - 1] == init;
      s
  }

  /** `s` writes the value `n` in exactly `width` ASCII digits. */
  predicate Spells(s: string, n: int, width: nat) {
    |s| == width && AllDigits(s) && DigitsValue(s) == n
  }

  /** `%d` and `%m` read a day or a month written in one or two digits. */
  predicate DayOrMonthSpelling(s: string, n: int) {
    Spells(s, n, 1) || Spells(s, n, 2)
  }

  /** `token` writes the date `d`: the day and the month in one or two
      digits, the year in four, separated by `/`. */
  ghost predicate Writes(token: string, d: Date) {
    exists a, b, y ::
      && DayOrMonthSpelling(a, d.day) && DayOrMonthSpelling(b, d.month) && Spells(y, d.year, 4)
      && token == a + "/" + b + "/" + y
  }

  /** A day or a month written in one or two digits is a field `%d` or `%m`
      reads back as that value. */
  lemma SpellingField(s: string, n: int)
    requires 1 <= n <= 31 && DayOrMonthSpelling(s, n)
    ensures '/' !in s
    ensures DayField(s) && (n <= 12 ==> MonthField(s))
  {
    if |s| == 1 {
      assert s[..0] == [];
      assert DigitsValue(s) == DigitValue(s[0]);
    }
    assert forall i :: 0 <= i < |s| ==> IsDigit(s[i]);
  }

  /** Conversely, each field `%d` or `%m` accepts writes its value in one
      or two digits. */
  lemma FieldSpelling(s: string)
    requires DayField(s) || MonthField(s)
    ensures 1 <= DigitsValue(s) <= 31 && DayOrMonthSpelling(s, DigitsValue(s))
  {
    if |s| == 1 {
      assert s[..0] == [];
      assert DigitsValue(s) == DigitValue(s[0]);
    }
  }

  /** `date.strftime("%d/%m/%Y")`, the form the council page uses. */
  function Format(d: Date): string
    requires Valid(d)
  {
    Pad(d.day, 2) + "/" + Pad(d.month, 2) + "/" + Pad(d.year, 4)
  }

  /** Three pieces joined with a separator. */
  lemma JoinThree(parts: seq<string>, sep: char)
    requires |parts| == 3
    ensures Join(parts, sep) == parts[0] + [sep] + parts[1] + [sep] + parts[2]
  {
    var x, y, z := parts[0], parts[1], parts[2];
    assert parts[1..][0] == y && parts[1..][1..] == [z];
    assert Join(parts[1..], sep) == y + [sep] + z;
    assert x + [sep] + (y + [sep] + z) == x + [sep] + y + [sep] + z;
  }

  /** A valid date, its day and month written in one or two digits and its
      year in four, parses back to itself. */
  lemma ParseSpelled(a: string, b: string, y: string, d: Date)
    requires Valid(d)
    requires DayOrMonthSpelling(a, d.day) && DayOrMonthSpelling(b, d.month) && Spells(y, d.year, 4)
    ensures ParseDate(a + "/" + b + "/" + y) == Some(d)
  {
    SpellingField(a, d.day);
    SpellingField(b, d.month);
    assert '/' !in y by { assert forall i :: 0 <= i < |y| ==> IsDigit(y[i]); }
    var parts := [a, b, y];
    JoinSplit(parts, '/');
    JoinThree(parts, '/');
  }

  /** Every valid date, written as the council writes it, parses back to itself. */
  lemma ParseFormat(d: Date)
    requires Valid(d)
    ensures ParseDate(Format(d)) == Some(d)
  {
    ParseSpelled(Pad(d.day, 2), Pad(d.month, 2), Pad(d.year, 4), d);
  }

  /** The pieces of an accepted token are the three fields, and the date
      is made of their values. */
  lemma ParseDateFields(token: string)
    requires ParseDate(token).Some?
    ensures var d, parts := ParseDate(token).value, Split(token, '/');
      && |parts| == 3 && DayField(parts[0]) && MonthField(parts[1]) && YearField(parts[2])
      && d == Date(DigitsValue(parts[2]), DigitsValue(parts[1]), DigitsValue(parts[0]))
  {
  }

  /** What an accepted token looks like: its three `/`-separated pieces
      write the day and the month in one or two digits and the year in four. */
  lemma ParseDateSpelled(token: string)
    requires ParseDate(token).Some?
    ensures var d, parts := ParseDate(token).value, Split(token, '/');
      && |parts| == 3
      && DayOrMonthSpelling(parts[0], d.day) && DayOrMonthSpelling(parts[1], d.month)
      && Spells(parts[2], d.year, 4)
      && token == parts[0] + "/" + parts[1] + "/" + parts[2]
  {
    var parts := Split(token, '/');
    ParseDateFields(token);
    FieldSpelling(parts[0]);
    FieldSpelling(parts[1]);
    SplitJoin(token, '/');
    JoinThree(parts, '/');
  }

  /** The tokens `strptime(token, "%d/%m/%Y")` accepts, and the date each
      names: exactly the day in one or two digits, `/`, the month in one or
      two digits, `/` and the year in four digits, of a date that exists.
      So "1/6/2023", "01/6/2023" and "01/06/2023" all name 1 June 2023. */
  lemma ParseDateExactly(token: string, d: Date)
    ensures ParseDate(token) == Some(d) <==> Valid(d) && Writes(token, d)
  {
    if ParseDate(token) == Some(d) {
      ParseDateSpelled(token);
      var parts := Split(token, '/');
      assert DayOrMonthSpelling(parts[0], d.day) && DayOrMonthSpelling(parts[1], d.month)
        && Spells(parts[2], d.year, 4) && token == parts[0] + "/" + parts[1] + "/" + parts[2];
    } else if Valid(d) {
      forall a, b, y | DayOrMonthSpelling(a, d.day) && DayOrMonthSpelling(b, d.month) && Spells(y, d.year, 4)
        ensures token != a + "/" + b + "/" + y
      {
        ParseSpelled(a, b, y, d);
      }
    }
  }

  /** `strptime` also reads an unpadded day and month: "1/6/2023" is 1 June 2023. */
  lemma UnpaddedExample()
    ensures ParseDate("1/6/2023") == Some(Date(2023, 6, 1))
  {
    var day, month, year := "1", "6", "2023";
    assert year[..3][..2] == year[..2] && year[..2][..1] == year[..1] && year[..1][..0] == "";
    assert DigitsValue(year[..1]) == 2;
    assert DigitsValue(year[..2]) == 20;
    assert DigitsValue(year[..3]) == 202;
    assert day[..0] == "" && month[..0] == "";
    assert Spells(day, 1, 1) && Spells(month, 6, 1) && Spells(year, 2023, 4);
    assert "1/6/2023" == day + "/" + month + "/" + year;
    ParseSpelled(day, month, year, Date(2023, 6, 1));
  }
}
