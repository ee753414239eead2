/**
 * Calendar arithmetic for the `YYYY-MM-DD` dates the core stores: a strict
 * parser, day numbers counted from 1970-01-01 (proleptic Gregorian, UTC) and
 * the weekday JavaScript's `getDay()` reports (0 = Sunday .. 6 = Saturday).
 */
module Civil {
  import opened Text
  import opened Wrappers
  import JsNumber

  datatype Date = Date(year: int, month: int, day: int)

  predicate IsLeapYear(y: int) {
    (y % 4 == 0 && y % 100 != 0) || y % 400 == 0
  }

  function DaysInMonth(y: int, m: int): (n: int)
    requires 1 <= m <= 12
    ensures 28 <= n <= 31
  {
    if m == 2 then (if IsLeapYear(y) then 29 else 28)
    else if m == 4 || m == 6 || m == 9 || m == 11 then 30
    else 31
  }

  predicate ValidDate(d: Date) {
    1 <= d.month <= 12 && 1 <= d.day <= DaysInMonth(d.year, d.month)
  }

  /** The number of days from 1970-01-01 to `d` (negative before it). */
  function DayNumber(d: Date): int
    requires ValidDate(d)
  {
    var y := if d.month <= 2 then d.year - 1 else d.year;
    var era := y / 400;
    var yoe := y - era * 400;
    var mp := if d.month > 2 then d.month - 3 else d.month + 9;
    var doy := (153 * mp + 2) / 5 + d.day - 1;
    var doe := yoe * 365 + yoe / 4 - yoe / 100 + doy;
    era * 146097 + doe - 719468
  }

  /** `getDay()` of a day number: 1970-01-01 was a Thursday. */
  function Weekday(dayNumber: int): (w: int)
    ensures 0 <= w < 7
  {
    (dayNumber + 4) % 7
  }

  predicate IsWeekday(dayNumber: int) {
    1 <= Weekday(dayNumber) <= 5
  }

  /** Within a month, day numbers count the days. */
  lemma DayNumberInMonth(y: int, m: int, d: int)
    requires ValidDate(Date(y, m, d))
    ensures DayNumber(Date(y, m, d)) == DayNumber(Date(y, m, 1)) + d - 1
  {
  }

  /** Consecutive day numbers step through the week. */
  lemma WeekdayNext(n: int)
    ensures Weekday(n + 1) == (Weekday(n) + 1) % 7
  {
  }

  /** `YYYY-MM-DD` with a real month and day; anything else is not a date (JavaScript's Invalid Date). */
  function ParseIsoDate(s: string): (r: Option<Date>)
    ensures r.Some? ==> ValidDate(r.value)
  {
    if |s| == 10 && s[4] == '-' && s[7] == '-'
       && AllDigits(s[..4]) && AllDigits(s[5..7]) && AllDigits(s[8..]) then
      var d := Date(JsNumber.DecimalValue(s[..4]), JsNumber.DecimalValue(s[5..7]), JsNumber.DecimalValue(s[8..]));
      if ValidDate(d) then Some(d) else None
    else None
  }

  /** A date written as ten characters `yyyy-mm-dd`, read digit by digit. */
  lemma ParseIsoDateDigits(s: string)
    requires |s| == 10 && s[4] == '-' && s[7] == '-'
    requires forall i :: 0 <= i < 10 && i != 4 && i != 7 ==> IsDigit(s[i])
    ensures var d := Date(
        JsNumber.DigitValue(s[0]) * 1000 + JsNumber.DigitValue(s[1]) * 100
          + JsNumber.DigitValue(s[2]) * 10 + JsNumber.DigitValue(s[3]),
        JsNumber.DigitValue(s[5]) * 10 + JsNumber.DigitValue(s[6]),
        JsNumber.DigitValue(s[8]) * 10 + JsNumber.DigitValue(s[9]));
      ParseIsoDate(s) == if ValidDate(d) then Some(d) else None
  {
    JsNumber.DecimalValue4(s[..4]);
    JsNumber.DecimalValue2(s[5..7]);
    JsNumber.DecimalValue2(s[8..]);
  }
}
