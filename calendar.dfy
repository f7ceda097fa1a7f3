/** Calendar dates as (year, month, day) triples of the proleptic Gregorian calendar,
    day ordinals for counting days, and the `YYYY-MM` month keys that both the
    server (`DATE_FORMAT(date, '%Y-%m')`, `dayjs(date).format('YYYY-MM')`) and the
    client (`toISOString().slice(0, 7)`) produce. */
module Calendar {
  import opened Base

  datatype Date = Date(year: int, month: int, day: int)

  predicate IsLeap(y: int) {
    (y % 4 == 0 && y % 100 != 0) || y % 400 == 0
  }

  function DaysInMonth(y: int, m: int): (n: int)
    ensures 28 <= n <= 31
  {
    if m == 2 then (if IsLeap(y) then 29 else 28)
    else if m == 4 || m == 6 || m == 9 || m == 11 then 30
    else 31
  }

  predicate ValidDate(d: Date) {
    1 <= d.month <= 12 && 1 <= d.day <= DaysInMonth(d.year, d.month)
  }

  /** Strictly earlier, which for valid dates is also the order of their
      `YYYY-MM-DD` strings. */
  predicate Before(a: Date, b: Date) {
    || a.year < b.year
    || (a.year == b.year && a.month < b.month)
    || (a.year == b.year && a.month == b.month && a.day < b.day)
  }

  predicate OnOrBefore(a: Date, b: Date) {
    a == b || Before(a, b)
  }

  function YearLength(y: int): int {
    if IsLeap(y) then 366 else 365
  }

  /** Days of the months before month m (m in 1..13) of year y. */
  function DaysBeforeMonth(y: int, m: int): int
    requires 1 <= m <= 13
  {
    [0, 31, 59, 90, 120, 151, 181, 212, 243, 273, 304, 334, 365][m - 1]
      + (if m > 2 && IsLeap(y) then 1 else 0)
  }

  /** Leap years among the years 1 .. y-1 (negative for years before 1). */
  function LeapsBefore(y: int): int {
    (y - 1) / 4 - (y - 1) / 100 + (y - 1) / 400
  }

  function DaysBeforeYear(y: int): int {
    365 * (y - 1) + LeapsBefore(y)
  }

  /** Day ordinal: consecutive days get consecutive numbers (see NextDayNumber). */
  function DayNumber(d: Date): int
    requires 1 <= d.month <= 12
  {
    DaysBeforeYear(d.year) + DaysBeforeMonth(d.year, d.month) + d.day - 1
  }

  /** The calendar day after d. */
  function NextDay(d: Date): Date {
    if d.day < DaysInMonth(d.year, d.month) then Date(d.year, d.month, d.day + 1)
    else if d.month < 12 then Date(d.year, d.month + 1, 1)
    else Date(d.year + 1, 1, 1)
  }

  lemma DivStep4(y: int)
    ensures y / 4 - (y - 1) / 4 == (if y % 4 == 0 then 1 else 0)
  {
  }

  lemma DivStep100(y: int)
    ensures y / 100 - (y - 1) / 100 == (if y % 100 == 0 then 1 else 0)
  {
  }

  lemma DivStep400(y: int)
    ensures y / 400 - (y - 1) / 400 == (if y % 400 == 0 then 1 else 0)
  {
  }

  lemma LeapDivisibility(y: int)
    ensures y % 400 == 0 ==> y % 100 == 0
    ensures y % 100 == 0 ==> y % 4 == 0
  {
    if y % 400 == 0 {
      var k := y / 400;
      assert y == 100 * (4 * k);
      HundredsMod(4 * k);
    }
    if y % 100 == 0 {
      var k := y / 100;
      assert y == 4 * (25 * k);
      FoursMod(25 * k);
    }
  }

  lemma HundredsMod(k: int)
    ensures (100 * k) % 100 == 0
  {
  }

  lemma FoursMod(k: int)
    ensures (4 * k) % 4 == 0
  {
  }

  /** A year has 365 days, 366 in a leap year. */
  lemma YearStep(y: int)
    ensures DaysBeforeYear(y + 1) == DaysBeforeYear(y) + YearLength(y)
  {
    DivStep4(y);
    DivStep100(y);
    DivStep400(y);
    LeapDivisibility(y);
  }

  lemma MonthStep(y: int, m: int)
    requires 1 <= m <= 12
    ensures DaysBeforeMonth(y, m + 1) == DaysBeforeMonth(y, m) + DaysInMonth(y, m)
    ensures DaysBeforeMonth(y, 13) == YearLength(y)
  {
  }

  /** The day after a valid date is valid, later, and numbered one more. */
  lemma NextDayNumber(d: Date)
    requires ValidDate(d)
    ensures ValidDate(NextDay(d))
    ensures Before(d, NextDay(d))
    ensures DayNumber(NextDay(d)) == DayNumber(d) + 1
  {
    MonthStep(d.year, d.month);
    if d.day == DaysInMonth(d.year, d.month) && d.month == 12 {
      YearStep(d.year);
    }
  }

  lemma {:induction false} DaysBeforeYearGrows(y: int, z: int)
    requires y < z
    ensures DaysBeforeYear(y) + YearLength(y) <= DaysBeforeYear(z)
    decreases z - y
  {
    YearStep(y);
    if y + 1 < z {
      DaysBeforeYearGrows(y + 1, z);
    }
  }

  lemma DayNumberInYear(d: Date)
    requires ValidDate(d)
    ensures DaysBeforeYear(d.year) <= DayNumber(d) < DaysBeforeYear(d.year) + YearLength(d.year)
  {
    MonthStep(d.year, d.month);
  }

  /** Day numbers follow the calendar order of valid dates. */
  lemma DayNumberOrder(a: Date, b: Date)
    requires ValidDate(a) && ValidDate(b)
    ensures Before(a, b) <==> DayNumber(a) < DayNumber(b)
    ensures a == b <==> DayNumber(a) == DayNumber(b)
  {
    DayNumberInYear(a);
    DayNumberInYear(b);
    if a.year < b.year {
      DaysBeforeYearGrows(a.year, b.year);
    } else if b.year < a.year {
      DaysBeforeYearGrows(b.year, a.year);
    } else {
      var y := a.year;
      if a.month < b.month {
        MonthStep(y, a.month);
        assert DaysBeforeMonth(y, a.month + 1) <= DaysBeforeMonth(y, b.month);
      } else if b.month < a.month {
        MonthStep(y, b.month);
        assert DaysBeforeMonth(y, b.month + 1) <= DaysBeforeMonth(y, a.month);
      }
    }
  }

  // ---------------------------------------------------------------- month keys

  /** The four-digit, zero-padded year as `YYYY` prints it. */
  function YearText(y: int): string {
    PadStart(IntToString(y), 4, '0')
  }

  /** The two-digit, zero-padded month as `MM` prints it. */
  function MonthText(m: int): string {
    PadStart(IntToString(m), 2, '0')
  }

  function YmKey(y: int, m: int): string {
    YearText(y) + "-" + MonthText(m)
  }

  /** `YYYY-MM` of a date. */
  function MonthKey(d: Date): string {
    YmKey(d.year, d.month)
  }

  /** A year in 0..9999 prints as exactly four digits whose value is the year. */
  lemma YearTextDigits(y: int)
    requires 0 <= y <= 9999
    ensures |YearText(y)| == 4 && AllDigits(YearText(y))
    ensures DigitsValue(YearText(y)) == y
  {
    assert Pow10(4) == 10000;
    assert IntToString(y) == NatToString(y);
    PaddedDigits(y, 4);
  }

  lemma MonthTextDigits(m: int)
    requires 0 <= m <= 99
    ensures |MonthText(m)| == 2 && AllDigits(MonthText(m))
    ensures DigitsValue(MonthText(m)) == m
  {
    assert Pow10(2) == 100;
    assert IntToString(m) == NatToString(m);
    PaddedDigits(m, 2);
  }

  /** A well-formed `YYYY-MM` key: four digits, a dash, two digits naming a month. */
  function ParseMonthKey(s: string): (r: Option<(int, int)>)
    ensures r.Some? ==> 0 <= r.value.0 <= 9999 && 1 <= r.value.1 <= 12
  {
    if |s| == 7 && AllDigits(s[..4]) && s[4] == '-' && AllDigits(s[5..]) then
      var y := DigitsValue(s[..4]);
      var m := DigitsValue(s[5..]);
      DigitsValueBound(s[..4]);
      assert Pow10(4) == 10000;
      if 1 <= m <= 12 then Some((y, m)) else None
    else None
  }

  /** Printing a month key and parsing it back gives the year and month. */
  lemma ParseYmKey(y: int, m: int)
    requires 0 <= y <= 9999 && 1 <= m <= 12
    ensures ParseMonthKey(YmKey(y, m)) == Some((y, m))
  {
    YearTextDigits(y);
    MonthTextDigits(m);
    KeyParts(YearText(y), MonthText(m));
  }

  /** The parts of a key joined by a dash are found back at their positions. */
  lemma KeyParts(a: string, b: string)
    requires |a| == 4 && |b| == 2
    ensures var k := a + "-" + b; |k| == 7 && k[..4] == a && k[4] == '-' && k[5..] == b
  {
    var k := a + "-" + b;
    assert k[..4] == a;
    assert k[5..] == b;
  }

  /** Parsing a well-formed key and printing it back gives the same key. */
  lemma YmKeyOfParse(s: string)
    requires ParseMonthKey(s).Some?
    ensures YmKey(ParseMonthKey(s).value.0, ParseMonthKey(s).value.1) == s
  {
    var (y, m) := ParseMonthKey(s).value;
    YearTextDigits(y);
    MonthTextDigits(m);
    DigitsInjective(YearText(y), s[..4]);
    DigitsInjective(MonthText(m), s[5..]);
    KeyJoin(s);
  }

  /** A seven-character key with a dash in the middle is its two parts joined. */
  lemma KeyJoin(s: string)
    requires |s| == 7 && s[4] == '-'
    ensures s == s[..4] + "-" + s[5..]
  {
  }

  /** Digit strings of the same length and value are equal. */
  lemma {:induction false} DigitsInjective(a: string, b: string)
    requires |a| == |b| && AllDigits(a) && AllDigits(b)
    requires DigitsValue(a) == DigitsValue(b)
    ensures a == b
    decreases |a|
  {
    if a != [] {
      var n := |a| - 1;
      assert DigitVal(a[n]) == DigitsValue(a) % 10;
      assert DigitVal(b[n]) == DigitsValue(b) % 10;
      assert DigitsValue(a[..n]) == DigitsValue(a) / 10;
      assert DigitsValue(b[..n]) == DigitsValue(b) / 10;
      DigitsInjective(a[..n], b[..n]);
      assert a[n] == b[n];
      assert a == a[..n] + [a[n]] && b == b[..n] + [b[n]];
    }
  }

  /** For years 0..9999, two dates have the same `YYYY-MM` key exactly when they
      fall in the same calendar month. */
  lemma MonthKeySame(a: Date, b: Date)
    requires 0 <= a.year <= 9999 && 0 <= b.year <= 9999
    requires 1 <= a.month <= 12 && 1 <= b.month <= 12
    ensures MonthKey(a) == MonthKey(b) <==> a.year == b.year && a.month == b.month
  {
    ParseYmKey(a.year, a.month);
    ParseYmKey(b.year, b.month);
  }
}
