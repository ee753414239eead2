/**
 * The payroll report: work days of a month less its weekday holidays, the
 * attendance aggregate fed to the payroll engine, one row per employee with
 * the running payroll total, and the derived views (salary brackets, top
 * earners, department totals and the month-on-month trend).
 *
 * Days are local day numbers; the weekday is the one of `getDay()`. The
 * offset of local time from UTC, the per-employee attendance, the tip pool
 * share and the dashboard statistics are inputs.
 */
module Reports {
  import opened Wrappers
  import opened Types
  import JsNumber
  import Civil
  import Payroll
  import AttendanceApi

  // ---------------------------------------------------------------------------
  // Work days

  /** The Monday-to-Friday days among the day numbers s..e. */
  function Weekdays(s: int, e: int): (n: nat)
    ensures n <= if e >= s then e - s + 1 else 0
    decreases e - s
  {
    if e < s then 0 else Weekdays(s, e - 1) + (if Civil.IsWeekday(e) then 1 else 0)
  }

  const MinutesPerDay := 1440

  /**
   * The local minute at which a holiday's date begins: the date text is read
   * as midnight UTC, which is `offset` minutes (local time less UTC) later
   * on the local clock.
   */
  function HolidayMinute(d: Civil.Date, offset: int): int
    requires Civil.ValidDate(d)
  {
    Civil.DayNumber(d) * MinutesPerDay + offset
  }

  /**
   * The holidays `countWorkDays` subtracts: dated, not inactive, not a
   * working holiday, at an instant from local midnight of day s to local
   * midnight of day e, on a local weekday.
   */
  predicate Subtracted(h: Holiday, s: int, e: int, offset: int) {
    var d := Civil.ParseIsoDate(h.date);
    && h.isActive && h.holidayType != "special_working" && d.Some?
    && s * MinutesPerDay <= HolidayMinute(d.value, offset) <= e * MinutesPerDay
    && Civil.IsWeekday(HolidayMinute(d.value, offset) / MinutesPerDay)
  }

  /**
   * At or east of UTC a holiday is subtracted when its date is a weekday from
   * s on and before e; a holiday on the last day e only counts at UTC itself,
   * since any positive offset puts it past local midnight of e.
   */
  lemma SubtractedEastOfUtc(h: Holiday, s: int, e: int, offset: int)
    requires 0 <= offset < MinutesPerDay
    ensures var d := Civil.ParseIsoDate(h.date);
      Subtracted(h, s, e, offset) <==>
        && h.isActive && h.holidayType != "special_working" && d.Some?
        && var day := Civil.DayNumber(d.value);
        && s <= day && (day < e || (day == e && offset == 0)) && Civil.IsWeekday(day)
  {
    var d := Civil.ParseIsoDate(h.date);
    if d.Some? {
      var day := Civil.DayNumber(d.value);
      var m := HolidayMinute(d.value, offset);
      assert m / MinutesPerDay == day;
      assert s * MinutesPerDay <= m <==> s <= day;
      assert m <= e * MinutesPerDay <==> day < e || (day == e && offset == 0);
    }
  }

  /** `.filter(...).length` over the holiday list; every matching entry counts, duplicates included. */
  function HolidayCount(hs: seq<Holiday>, s: int, e: int, offset: int): (n: nat)
    ensures n <= |hs|
  {
    if hs == [] then 0
    else HolidayCount(hs[..|hs| - 1], s, e, offset) + (if Subtracted(hs[|hs| - 1], s, e, offset) then 1 else 0)
  }

  /** `Math.max(0, weekdays - holidays)`. */
  function WorkDays(s: int, e: int, hs: seq<Holiday>, offset: int): int {
    var n := Weekdays(s, e) - HolidayCount(hs, s, e, offset);
    if n > 0 then n else 0
  }

  /** `countWorkDays`: a day-by-day walk from s to e, then the holiday subtraction. */
  method CountWorkDays(s: int, e: int, holidays: seq<Holiday>, offset: int) returns (count: int)
    ensures count == WorkDays(s, e, holidays, offset)
  {
    var d := s;
    count := 0;
    while d <= e
      invariant s <= d && (d == s || d <= e + 1)
      invariant count == Weekdays(s, d - 1)
      decreases e - d
    {
      if Civil.IsWeekday(d) {
        count := count + 1;
      }
      d := d + 1;
    }
    var holidayCount := HolidayCount(holidays, s, e, offset);
    count := if count - holidayCount > 0 then count - holidayCount else 0;
  }

  /** The count never goes below 0 nor above the weekdays of the range, and holidays only lower it. */
  lemma WorkDaysBounds(s: int, e: int, hs: seq<Holiday>, h: Holiday, offset: int)
    ensures 0 <= WorkDays(s, e, hs, offset) <= Weekdays(s, e)
    ensures WorkDays(s, e, hs + [h], offset) <= WorkDays(s, e, hs, offset)
    ensures HolidayCount(hs, s, e, offset) == 0 ==> WorkDays(s, e, hs, offset) == Weekdays(s, e)
  {
    assert (hs + [h])[..|hs|] == hs;
  }

  /** Entries are counted, not dates: the same holiday listed twice takes off two days. */
  lemma DuplicateHolidayCountsTwice(h: Holiday, s: int, e: int, offset: int)
    requires Subtracted(h, s, e, offset)
    ensures HolidayCount([h, h], s, e, offset) == 2
  {
    assert [h, h][..1] == [h];
    assert [h][..0] == [];
  }

  lemma {:induction false} WeekdaysSplit(s: int, m: int, e: int)
    requires s - 1 <= m <= e
    ensures Weekdays(s, e) == Weekdays(s, m) + Weekdays(m + 1, e)
    decreases e - m
  {
    if m < e {
      WeekdaysSplit(s, m, e - 1);
    }
  }

  /** Any seven consecutive days hold five weekdays. */
  lemma WeekdaysOfWeek(s: int)
    ensures Weekdays(s, s + 6) == 5
  {
    var w := Civil.Weekday(s);
    WeekdayAdd(s, 0);
    WeekdayAdd(s, 1);
    WeekdayAdd(s, 2);
    WeekdayAdd(s, 3);
    WeekdayAdd(s, 4);
    WeekdayAdd(s, 5);
    WeekdayAdd(s, 6);
    assert Weekdays(s, s - 1) == 0;
    assert Weekdays(s, s + 1) == Weekdays(s, s) + (if Civil.IsWeekday(s + 1) then 1 else 0);
    assert Weekdays(s, s + 2) == Weekdays(s, s + 1) + (if Civil.IsWeekday(s + 2) then 1 else 0);
    assert Weekdays(s, s + 3) == Weekdays(s, s + 2) + (if Civil.IsWeekday(s + 3) then 1 else 0);
    assert Weekdays(s, s + 4) == Weekdays(s, s + 3) + (if Civil.IsWeekday(s + 4) then 1 else 0);
    assert Weekdays(s, s + 5) == Weekdays(s, s + 4) + (if Civil.IsWeekday(s + 5) then 1 else 0);
    assert Weekdays(s, s + 6) == Weekdays(s, s + 5) + (if Civil.IsWeekday(s + 6) then 1 else 0);
  }

  lemma WeekdayAdd(s: int, k: int)
    requires 0 <= k <= 6
    ensures Civil.Weekday(s + k) == if Civil.Weekday(s) + k < 7 then Civil.Weekday(s) + k else Civil.Weekday(s) + k - 7
  {
  }

  /** A range of w whole weeks holds 5 * w weekdays. */
  lemma {:induction false} WeekdaysOfWeeks(s: int, w: nat)
    ensures Weekdays(s, s + 7 * w - 1) == 5 * w
  {
    if w > 0 {
      var a := s + 7 * (w - 1);
      assert s + 7 * w - 1 == a + 6;
      WeekdaysOfWeeks(s, w - 1);
      WeekdaysSplit(s, a - 1, a + 6);
      WeekdaysOfWeek(a);
    }
  }

  /** The first and last day numbers of a month. */
  function MonthStart(y: int, m: int): int
    requires 1 <= m <= 12
  {
    Civil.DayNumber(Civil.Date(y, m, 1))
  }

  function MonthEnd(y: int, m: int): int
    requires 1 <= m <= 12
  {
    Civil.DayNumber(Civil.Date(y, m, Civil.DaysInMonth(y, m)))
  }

  /** A month spans its days, so its work days are between 20 and 23 less its holidays. */
  lemma MonthWorkDays(y: int, m: int, hs: seq<Holiday>, offset: int)
    requires 1 <= m <= 12
    ensures MonthEnd(y, m) - MonthStart(y, m) + 1 == Civil.DaysInMonth(y, m)
    ensures 20 <= Weekdays(MonthStart(y, m), MonthEnd(y, m)) <= 23
    ensures WorkDays(MonthStart(y, m), MonthEnd(y, m), hs, offset) <= 23
  {
    var s, e := MonthStart(y, m), MonthEnd(y, m);
    Civil.DayNumberInMonth(y, m, Civil.DaysInMonth(y, m));
    WeekdaysOfWeeks(s, 4);
    assert s + 7 * 4 - 1 == s + 27;
    WeekdaysSplit(s, s + 27, e);
  }

  // ---------------------------------------------------------------------------
  // Attendance aggregate

  type Record = AttendanceApi.ApiAttendance

  predicate Attended(r: Record) { r.status == "present" || r.hoursWorked > 0.0 }

  function DaysPresent(rs: seq<Record>): (n: nat)
    ensures n <= |rs|
  {
    if rs == [] then 0 else DaysPresent(rs[..|rs| - 1]) + (if Attended(rs[|rs| - 1]) then 1 else 0)
  }

  /** The positions of the records that count as a day present. */
  function AttendedDays(rs: seq<Record>): set<int> {
    set k | 0 <= k < |rs| && Attended(rs[k])
  }

  /** The running count is the number of records that count as a day present. */
  lemma {:induction false} DaysPresentIsCount(rs: seq<Record>)
    ensures DaysPresent(rs) == |AttendedDays(rs)|
  {
    if rs != [] {
      var n := |rs| - 1;
      var init := rs[..n];
      DaysPresentIsCount(init);
      assert forall k :: 0 <= k < n ==> init[k] == rs[k];
      assert AttendedDays(rs) == AttendedDays(init) + (if Attended(rs[n]) then {n} else {});
    }
  }

  function TotalOvertime(rs: seq<Record>): real {
    if rs == [] then 0.0 else TotalOvertime(rs[..|rs| - 1]) + rs[|rs| - 1].overtimeHours
  }

  /** The attendance passed to the payroll engine for a month with `workDays` work days. */
  function AggregateAttendance(rs: seq<Record>, workDays: int): (a: Payroll.AttendancePeriod)
    ensures a.workDays == Some(workDays as real) && a.expectedHours == Some((workDays * 8) as real)
    ensures a.daysPresent == Some(|AttendedDays(rs)| as real) && a.daysPresent.value <= |rs| as real
    ensures a.hoursWorked.None?
  {
    DaysPresentIsCount(rs);
    Payroll.AttendancePeriod(Some(workDays as real), Some(DaysPresent(rs) as real), Some((workDays * 8) as real),
      None, Some(JsNumber.Round2(TotalOvertime(rs))))
  }

  lemma {:induction false} TotalOvertimeNonNegative(rs: seq<Record>)
    requires forall k :: 0 <= k < |rs| ==> rs[k].overtimeHours >= 0.0
    ensures TotalOvertime(rs) >= 0.0
  {
    if rs != [] { TotalOvertimeNonNegative(rs[..|rs| - 1]); }
  }

  /** With non-negative overtime per record the aggregate overtime is non-negative, and it is the rounded sum. */
  lemma AggregateOvertime(rs: seq<Record>, workDays: int)
    requires forall k :: 0 <= k < |rs| ==> rs[k].overtimeHours >= 0.0
    ensures var o := AggregateAttendance(rs, workDays).overtimeHours.value;
      o >= 0.0 && TotalOvertime(rs) - 0.005 < o <= TotalOvertime(rs) + 0.005
  {
    TotalOvertimeNonNegative(rs);
    JsNumber.Round2Monotone(0.0, TotalOvertime(rs));
    JsNumber.Round2OfHundredths(0);
  }

  /** The aggregate does not depend on the order of the records. */
  lemma {:induction false} AggregateIgnoresOrder(a: seq<Record>, b: seq<Record>)
    requires multiset(a) == multiset(b)
    ensures DaysPresent(a) == DaysPresent(b) && TotalOvertime(a) == TotalOvertime(b)
    decreases |a|
  {
    if a != [] {
      var x := a[|a| - 1];
      assert x in multiset(b);
      var j :| 0 <= j < |b| && b[j] == x;
      var b' := b[..j] + b[j + 1..];
      assert b == b[..j] + [x] + b[j + 1..];
      assert a == a[..|a| - 1] + [x];
      assert multiset(b) == multiset(b[..j]) + multiset{x} + multiset(b[j + 1..]);
      assert multiset(a) == multiset(a[..|a| - 1]) + multiset{x};
      assert multiset(b') == multiset(b[..j]) + multiset(b[j + 1..]);
      assert multiset(b') == multiset(b) - multiset{x};
      assert multiset(a[..|a| - 1]) == multiset(a) - multiset{x};
      AggregateIgnoresOrder(a[..|a| - 1], b');
      RemoveRecord(b[..j], x, b[j + 1..]);
    }
  }

  lemma {:induction false} RemoveRecord(u: seq<Record>, x: Record, v: seq<Record>)
    ensures DaysPresent(u + [x] + v) == DaysPresent(u + v) + (if Attended(x) then 1 else 0)
    ensures TotalOvertime(u + [x] + v) == TotalOvertime(u + v) + x.overtimeHours
    decreases |v|
  {
    if v == [] {
      assert u + [x] + v == u + [x];
      assert (u + [x])[..|u|] == u;
      assert u + v == u;
    } else {
      var v' := v[..|v| - 1];
      RemoveRecord(u, x, v');
      assert (u + [x] + v)[..|u + [x] + v| - 1] == u + [x] + v';
      assert (u + v)[..|u + v| - 1] == u + v';
    }
  }

  // ---------------------------------------------------------------------------
  // Sorting by a key, highest first

  predicate SortedDesc<T>(s: seq<T>, key: T -> real) {
    forall i, j :: 0 <= i < j < |s| ==> key(s[i]) >= key(s[j])
  }

  /** Inserts `x` after every element whose key is not below its own. */
  function InsertDesc<T>(x: T, s: seq<T>, key: T -> real): seq<T> {
    if s == [] then [x]
    else if key(x) > key(s[0]) then [x] + s
    else [s[0]] + InsertDesc(x, s[1..], key)
  }

  lemma {:induction false} InsertDescKeeps<T>(x: T, s: seq<T>, key: T -> real)
    ensures multiset(InsertDesc(x, s, key)) == multiset(s) + multiset{x}
  {
    if s != [] && key(x) <= key(s[0]) {
      InsertDescKeeps(x, s[1..], key);
      assert s == [s[0]] + s[1..];
    }
  }

  lemma {:induction false} InsertDescSorted<T>(x: T, s: seq<T>, key: T -> real)
    requires SortedDesc(s, key)
    ensures SortedDesc(InsertDesc(x, s, key), key)
  {
    if s != [] && key(x) <= key(s[0]) {
      var rest := InsertDesc(x, s[1..], key);
      InsertDescSorted(x, s[1..], key);
      InsertDescKeeps(x, s[1..], key);
      forall k | 0 <= k < |rest| ensures key(s[0]) >= key(rest[k]) {
        assert rest[k] in multiset(rest);
        if rest[k] != x {
          assert rest[k] in multiset(s[1..]);
          var m :| 0 <= m < |s[1..]| && s[1..][m] == rest[k];
          assert s[1 + m] == rest[k];
        }
      }
      var r := [s[0]] + rest;
      forall i, j | 0 <= i < j < |r| ensures key(r[i]) >= key(r[j]) {
        if i > 0 { assert r[i] == rest[i - 1] && r[j] == rest[j - 1]; }
        else { assert r[j] == rest[j - 1]; }
      }
    }
  }

  /** `Array.prototype.sort` with `(a, b) => key(b) - key(a)`: a stable sort, highest key first. */
  function SortDesc<T>(s: seq<T>, key: T -> real): seq<T> {
    if s == [] then [] else InsertDesc(s[|s| - 1], SortDesc(s[..|s| - 1], key), key)
  }

  /** The sort is a permutation of its input, ordered by the key from highest to lowest. */
  lemma {:induction false} SortDescSpec<T>(s: seq<T>, key: T -> real)
    ensures multiset(SortDesc(s, key)) == multiset(s) && |SortDesc(s, key)| == |s|
    ensures SortedDesc(SortDesc(s, key), key)
  {
    if s != [] {
      var init := SortDesc(s[..|s| - 1], key);
      SortDescSpec(s[..|s| - 1], key);
      InsertDescKeeps(s[|s| - 1], init, key);
      InsertDescSorted(s[|s| - 1], init, key);
      assert s == s[..|s| - 1] + [s[|s| - 1]];
      assert multiset(s) == multiset(s[..|s| - 1]) + multiset{s[|s| - 1]};
      assert |SortDesc(s, key)| == |multiset(SortDesc(s, key))|;
    }
  }

  // ---------------------------------------------------------------------------
  // Rows and the running total

  datatype Row = Row(id: string, name: string, department: string, position: string,
                     baseSalary: real, proratedBase: real, allowancesTotal: real,
                     deductionsTotal: real, gross: real, net: real)

  /**
   * What one employee contributes: the employee, the attendance records the
   * month's fetch answered (None when it failed or threw; a body that is not
   * an array is the empty list) and the tip pool share.
   */
  datatype RowInput = RowInput(employee: Employee, fetched: Option<seq<Record>>, poolShare: real)

  /** The first and last local day numbers of a monthly report. */
  datatype MonthRange = MonthRange(start: int, end: int)

  /** The work days of the report's month, the same for every employee; 0 when the report is not monthly. */
  function RangeWorkDays(range: Option<MonthRange>, holidays: seq<Holiday>, offset: int): int {
    if range.Some? then WorkDays(range.value.start, range.value.end, holidays, offset) else 0
  }

  /** The attendance handed to the payroll engine: the month's aggregate when the report is monthly and the fetch answered, else none. */
  function AttendanceOf(fetched: Option<seq<Record>>, range: Option<MonthRange>, workDays: int): (a: Option<Payroll.AttendancePeriod>)
    ensures a.Some? <==> range.Some? && fetched.Some?
    ensures a.Some? ==> a.value == AggregateAttendance(fetched.value, workDays)
  {
    if range.Some? && fetched.Some? then Some(AggregateAttendance(fetched.value, workDays)) else None
  }

  /**
   * In a monthly report every employee whose fetch answered gets the month's
   * work days, the count of attended records among those fetched, the
   * rounded overtime total and eight expected hours per work day.
   */
  lemma AttendanceOfRule(fetched: Option<seq<Record>>, range: Option<MonthRange>, holidays: seq<Holiday>, offset: int)
    requires range.Some? && fetched.Some?
    ensures var a := AttendanceOf(fetched, range, RangeWorkDays(range, holidays, offset)).value;
      var w := WorkDays(range.value.start, range.value.end, holidays, offset);
      && a.workDays == Some(w as real) && a.expectedHours == Some((w * 8) as real)
      && a.daysPresent == Some(|AttendedDays(fetched.value)| as real)
      && a.overtimeHours == Some(JsNumber.Round2(TotalOvertime(fetched.value)))
  {
  }

  function OrDash(s: string): string { if s == [] then "-" else s }

  function RowOf(x: RowInput, attendance: Option<Payroll.AttendancePeriod>, period: string, generatedAt: string): (r: Row)
  {
    var p := Payroll.CalculatePayroll(x.employee, period, attendance, x.poolShare, generatedAt);
    Row(x.employee.id, x.employee.name, OrDash(x.employee.department), OrDash(x.employee.position),
        p.baseSalary, p.proratedBase, p.allowances.total, p.deductions.total, p.grossSalary, p.netSalary)
  }

  /** A row carries the pay slip's figures, and its department and position cells are never blank. */
  lemma RowShowsPaySlip(x: RowInput, attendance: Option<Payroll.AttendancePeriod>, period: string, generatedAt: string)
    ensures var r := RowOf(x, attendance, period, generatedAt);
      var p := Payroll.CalculatePayroll(x.employee, period, attendance, x.poolShare, generatedAt);
      && r.id == x.employee.id && r.net == p.netSalary && r.gross == p.grossSalary
      && r.department != [] && r.position != []
      && (x.employee.department != [] ==> r.department == x.employee.department)
  {
  }

  function SumNets(rows: seq<Row>): real {
    if rows == [] then 0.0 else SumNets(rows[..|rows| - 1]) + rows[|rows| - 1].net
  }

  /**
   * One row per employee, pushed as each pay slip is computed, with the
   * payroll total accumulated beside them; in a monthly report the work days
   * are counted over the month with the given holidays.
   */
  method BuildRows(inputs: seq<RowInput>, period: string, generatedAt: string,
                   range: Option<MonthRange>, holidays: seq<Holiday>, offset: int)
    returns (rows: seq<Row>, totalPayroll: real)
    ensures |rows| == |inputs|
    ensures forall k :: 0 <= k < |rows| ==>
      rows[k] == RowOf(inputs[k], AttendanceOf(inputs[k].fetched, range, RangeWorkDays(range, holidays, offset)),
                       period, generatedAt)
    ensures totalPayroll == SumNets(rows)
  {
    var workDays := 0;
    if range.Some? {
      workDays := CountWorkDays(range.value.start, range.value.end, holidays, offset);
    }
    rows, totalPayroll := PushRows(inputs, (x: RowInput) => RowOf(x, AttendanceOf(x.fetched, range, workDays), period, generatedAt));
  }

  /** The loop of `BuildRows`, for any way of computing one employee's row. */
  method PushRows(inputs: seq<RowInput>, rowOf: RowInput -> Row) returns (rows: seq<Row>, totalPayroll: real)
    ensures |rows| == |inputs|
    ensures forall k :: 0 <= k < |rows| ==> rows[k] == rowOf(inputs[k])
    ensures totalPayroll == SumNets(rows)
  {
    rows := [];
    totalPayroll := 0.0;
    var i := 0;
    while i < |inputs|
      invariant 0 <= i <= |inputs| && |rows| == i
      invariant forall k :: 0 <= k < i ==> rows[k] == rowOf(inputs[k])
      invariant totalPayroll == SumNets(rows)
    {
      var row := rowOf(inputs[i]);
      PushRow(rows, row);
      rows := rows + [row];
      totalPayroll := totalPayroll + row.net;
      i := i + 1;
    }
  }

  lemma PushRow(rows: seq<Row>, row: Row)
    ensures SumNets(rows + [row]) == SumNets(rows) + row.net
  {
    assert (rows + [row])[..|rows|] == rows;
  }

  lemma {:induction false} SumNetsAppend(a: seq<Row>, b: seq<Row>)
    ensures SumNets(a + b) == SumNets(a) + SumNets(b)
    decreases |b|
  {
    if b == [] {
      assert a + b == a;
    } else {
      SumNetsAppend(a, b[..|b| - 1]);
      assert (a + b)[..|a + b| - 1] == a + b[..|b| - 1];
    }
  }

  /** The total does not depend on the order in which the rows were pushed. */
  lemma {:induction false} SumNetsIgnoresOrder(a: seq<Row>, b: seq<Row>)
    requires multiset(a) == multiset(b)
    ensures SumNets(a) == SumNets(b)
    decreases |a|
  {
    if a != [] {
      var x := a[|a| - 1];
      assert x in multiset(b);
      var j :| 0 <= j < |b| && b[j] == x;
      var b' := b[..j] + b[j + 1..];
      assert b == b[..j] + [x] + b[j + 1..];
      assert a == a[..|a| - 1] + [x];
      assert multiset(b) == multiset(b[..j]) + multiset{x} + multiset(b[j + 1..]);
      assert multiset(a) == multiset(a[..|a| - 1]) + multiset{x};
      assert multiset(b') == multiset(b[..j]) + multiset(b[j + 1..]);
      assert multiset(b') == multiset(b) - multiset{x};
      assert multiset(a[..|a| - 1]) == multiset(a) - multiset{x};
      SumNetsIgnoresOrder(a[..|a| - 1], b');
      SumNetsAppend(b[..j] + [x], b[j + 1..]);
      SumNetsAppend(b[..j], b[j + 1..]);
      assert (b[..j] + [x])[..j] == b[..j];
    }
  }

  // ---------------------------------------------------------------------------
  // Department breakdown

  datatype DepartmentEntry = DepartmentEntry(department: string, employeeCount: int, totalSalary: real, averageSalary: real)

  function DepartmentTotal(rows: seq<Row>, department: string): real {
    if rows == [] then 0.0
    else
      var last := rows[|rows| - 1];
      DepartmentTotal(rows[..|rows| - 1], department) + (if last.department == department then last.net else 0.0)
  }

  function EntryOf(rows: seq<Row>, stat: (string, int)): (d: DepartmentEntry)
    ensures d.employeeCount > 0 ==> d.averageSalary * d.employeeCount as real == d.totalSalary
    ensures d.employeeCount <= 0 ==> d.averageSalary == 0.0
  {
    var total := DepartmentTotal(rows, stat.0);
    DepartmentEntry(stat.0, stat.1, total, if stat.1 > 0 then total / stat.1 as real else 0.0)
  }

  function TotalKey(d: DepartmentEntry): real { d.totalSalary }

  function Entries(stats: seq<(string, int)>, rows: seq<Row>): (r: seq<DepartmentEntry>)
    ensures |r| == |stats| && forall k :: 0 <= k < |r| ==> r[k] == EntryOf(rows, stats[k])
  {
    seq(|stats|, k requires 0 <= k < |stats| => EntryOf(rows, stats[k]))
  }

  /** One entry per department of the dashboard statistics, highest total first. */
  function DepartmentBreakdown(stats: seq<(string, int)>, rows: seq<Row>): seq<DepartmentEntry> {
    SortDesc(Entries(stats, rows), TotalKey)
  }

  /**
   * The breakdown lists exactly the entries of the statistics with the total
   * net of the department's rows and the average per counted employee,
   * highest total first.
   */
  lemma DepartmentBreakdownRule(stats: seq<(string, int)>, rows: seq<Row>)
    ensures var b := DepartmentBreakdown(stats, rows);
      && |b| == |stats|
      && multiset(b) == multiset(Entries(stats, rows))
      && (forall i, j :: 0 <= i < j < |b| ==> b[i].totalSalary >= b[j].totalSalary)
      && (forall d :: d in b ==>
            (&& d.totalSalary == DepartmentTotal(rows, d.department)
             && (d.employeeCount > 0 ==> d.averageSalary == d.totalSalary / d.employeeCount as real)
             && (d.employeeCount <= 0 ==> d.averageSalary == 0.0)))
  {
    var entries := Entries(stats, rows);
    var b := DepartmentBreakdown(stats, rows);
    SortDescSpec(entries, TotalKey);
    assert SortedDesc(b, TotalKey);
    forall i, j | 0 <= i < j < |b| ensures b[i].totalSalary >= b[j].totalSalary {
      assert TotalKey(b[i]) >= TotalKey(b[j]);
    }
    forall d | d in b
      ensures d.totalSalary == DepartmentTotal(rows, d.department)
      ensures d.employeeCount > 0 ==> d.averageSalary == d.totalSalary / d.employeeCount as real
      ensures d.employeeCount <= 0 ==> d.averageSalary == 0.0
    {
      assert d in multiset(entries);
      var k :| 0 <= k < |entries| && entries[k] == d;
    }
  }

  /** A department's total plus the total of the rows of every other department is the payroll total. */
  lemma {:induction false} DepartmentTotalSplit(rows: seq<Row>, department: string)
    ensures DepartmentTotal(rows, department) + OtherTotal(rows, department) == SumNets(rows)
  {
    if rows != [] { DepartmentTotalSplit(rows[..|rows| - 1], department); }
  }

  function OtherTotal(rows: seq<Row>, department: string): real {
    if rows == [] then 0.0
    else
      var last := rows[|rows| - 1];
      OtherTotal(rows[..|rows| - 1], department) + (if last.department != department then last.net else 0.0)
  }

  // ---------------------------------------------------------------------------
  // Salary brackets

  /** A half-open bracket [min, max); `None` stands for an unbounded top. */
  datatype Bracket = Bracket(title: string, min: real, max: Option<real>)

  const SalaryRanges: seq<Bracket> := [
    Bracket("< 5M", 0.0, Some(5000000.0)),
    Bracket("5M - 10M", 5000000.0, Some(10000000.0)),
    Bracket("10M - 15M", 10000000.0, Some(15000000.0)),
    Bracket("15M - 25M", 15000000.0, Some(25000000.0)),
    Bracket("> 25M", 25000000.0, None)]

  predicate InBracket(v: real, b: Bracket) { v >= b.min && (b.max.None? || v < b.max.value) }

  /** The bracket a non-negative net falls in, by its thresholds. */
  function BracketIndex(v: real): nat {
    if v < 5000000.0 then 0 else if v < 10000000.0 then 1 else if v < 15000000.0 then 2
    else if v < 25000000.0 then 3 else 4
  }

  /** The brackets partition [0, infinity): a non-negative net is in exactly one, a negative net in none. */
  lemma BracketsPartition(v: real)
    ensures v >= 0.0 ==> forall k :: 0 <= k < |SalaryRanges| ==> (InBracket(v, SalaryRanges[k]) <==> k == BracketIndex(v))
    ensures v < 0.0 ==> forall k :: 0 <= k < |SalaryRanges| ==> !InBracket(v, SalaryRanges[k])
  {
  }

  function CountIn(rows: seq<Row>, b: Bracket): (n: nat)
    ensures n <= |rows|
  {
    if rows == [] then 0 else CountIn(rows[..|rows| - 1], b) + (if InBracket(rows[|rows| - 1].net, b) then 1 else 0)
  }

  function CountNonNegative(rows: seq<Row>): nat {
    if rows == [] then 0 else CountNonNegative(rows[..|rows| - 1]) + (if rows[|rows| - 1].net >= 0.0 then 1 else 0)
  }

  datatype Bucket = Bucket(range: string, count: nat, percentage: real)

  /**
   * `salaryDistribution`: the count per bracket and its share of all
   * employees, 0 without employees; every row with a non-negative net is in
   * exactly one bucket.
   */
  function SalaryDistribution(rows: seq<Row>, employees: nat): (r: seq<Bucket>)
    ensures |r| == |SalaryRanges|
    ensures forall k :: 0 <= k < |r| ==> r[k].range == SalaryRanges[k].title && r[k].count == CountIn(rows, SalaryRanges[k])
    ensures forall k :: 0 <= k < |r| ==> r[k].percentage == if employees > 0 then r[k].count as real / employees as real * 100.0 else 0.0
    ensures r[0].count + r[1].count + r[2].count + r[3].count + r[4].count == CountNonNegative(rows)
  {
    BracketCountsSum(rows);
    seq(|SalaryRanges|, k requires 0 <= k < |SalaryRanges| =>
      var c := CountIn(rows, SalaryRanges[k]);
      Bucket(SalaryRanges[k].title, c, if employees > 0 then c as real / employees as real * 100.0 else 0.0))
  }

  /** Every row with a non-negative net is counted in exactly one bracket. */
  lemma {:induction false} BracketCountsSum(rows: seq<Row>)
    ensures CountIn(rows, SalaryRanges[0]) + CountIn(rows, SalaryRanges[1]) + CountIn(rows, SalaryRanges[2])
          + CountIn(rows, SalaryRanges[3]) + CountIn(rows, SalaryRanges[4]) == CountNonNegative(rows)
  {
    if rows != [] {
      BracketCountsSum(rows[..|rows| - 1]);
      BracketsPartition(rows[|rows| - 1].net);
    }
  }

  // ---------------------------------------------------------------------------
  // Top earners

  datatype Earner = Earner(name: string, position: string, department: string, salary: real)

  function EarnerOf(r: Row): Earner { Earner(r.name, r.position, r.department, r.net) }

  function Salary(e: Earner): real { e.salary }

  function Earners(rows: seq<Row>): (r: seq<Earner>)
    ensures |r| == |rows| && forall k :: 0 <= k < |r| ==> r[k] == EarnerOf(rows[k])
  {
    seq(|rows|, k requires 0 <= k < |rows| => EarnerOf(rows[k]))
  }

  /** `topEarners`: the rows by net, highest first, at most ten. */
  function TopEarners(rows: seq<Row>): seq<Earner> {
    var sorted := SortDesc(Earners(rows), Salary);
    if |sorted| <= 10 then sorted else sorted[..10]
  }

  /**
   * At most ten earners, highest net first, drawn from the rows, and no row
   * left out earns more than any earner listed.
   */
  lemma TopEarnersRule(rows: seq<Row>)
    ensures var top := TopEarners(rows);
      && |top| == (if |rows| <= 10 then |rows| else 10)
      && (forall i, j :: 0 <= i < j < |top| ==> top[i].salary >= top[j].salary)
      && multiset(top) <= multiset(Earners(rows))
      && (forall x, y :: x in multiset(Earners(rows)) - multiset(top) && y in top ==> x.salary <= y.salary)
  {
    var sorted := SortDesc(Earners(rows), Salary);
    var top := TopEarners(rows);
    SortDescSpec(Earners(rows), Salary);
    if |sorted| > 10 {
      assert sorted == sorted[..10] + sorted[10..];
      assert multiset(sorted) == multiset(sorted[..10]) + multiset(sorted[10..]);
      forall x, y | x in multiset(Earners(rows)) - multiset(top) && y in top
        ensures x.salary <= y.salary
      {
        assert x in multiset(sorted[10..]);
        var i :| 0 <= i < |sorted[10..]| && sorted[10..][i] == x;
        var j :| 0 <= j < 10 && top[j] == y;
        assert Salary(sorted[j]) >= Salary(sorted[10 + i]);
      }
    }
  }

  // ---------------------------------------------------------------------------
  // Trends

  datatype MonthAmount = MonthAmount(month: string, amount: real)
  datatype Trend = Trend(period: string, amount: real, growth: real)

  /** `slice(-6)`. */
  function LastSix(s: seq<MonthAmount>): (r: seq<MonthAmount>)
    ensures |r| == if |s| <= 6 then |s| else 6
    ensures r == s[|s| - |r|..]
  {
    if |s| <= 6 then s else s[|s| - 6..]
  }

  function Growth(t: seq<MonthAmount>, i: nat): real
    requires i < |t|
  {
    if i > 0 && t[i - 1].amount > 0.0 then (t[i].amount - t[i - 1].amount) / t[i - 1].amount * 100.0 else 0.0
  }

  function Trends(monthly: seq<MonthAmount>): (r: seq<Trend>)
    ensures var t := LastSix(monthly);
      |r| == |t| && forall i :: 0 <= i < |r| ==> r[i] == Trend(t[i].month, t[i].amount, Growth(t, i))
  {
    var t := LastSix(monthly);
    seq(|t|, i requires 0 <= i < |t| => Trend(t[i].month, t[i].amount, Growth(t, i)))
  }

  /** `growth` is the percentage change from `previous` to `amount`, and it is positive exactly for a rise. */
  predicate PercentChange(previous: real, amount: real, growth: real) {
    amount == previous * (1.0 + growth / 100.0) && (growth > 0.0 <==> amount > previous)
  }

  lemma GrowthRule(t: seq<MonthAmount>, i: nat)
    requires 0 < i < |t| && t[i - 1].amount > 0.0
    ensures PercentChange(t[i - 1].amount, t[i].amount, Growth(t, i))
  {
    var p, a := t[i - 1].amount, t[i].amount;
    var q := (a - p) / p;
    assert q * p == a - p;
    assert Growth(t, i) == q * 100.0;
    assert p * (1.0 + q) == a;
    if a - p > 0.0 { assert q > 0.0; } else { assert q <= 0.0; }
  }

  /** The trend shows the last six months (or all of them, when fewer) in their given order. */
  lemma TrendsShape(monthly: seq<MonthAmount>)
    ensures var tr := Trends(monthly);
      && |tr| == (if |monthly| <= 6 then |monthly| else 6)
      && (forall i :: 0 <= i < |tr| ==>
            tr[i].period == monthly[|monthly| - |tr| + i].month && tr[i].amount == monthly[|monthly| - |tr| + i].amount)
  {
    var t := LastSix(monthly);
    assert forall i :: 0 <= i < |t| ==> t[i] == monthly[|monthly| - |t| + i];
  }

  /** The first month, and any month after a month without a positive amount, shows no growth. */
  lemma TrendsFlat(monthly: seq<MonthAmount>)
    ensures var tr := Trends(monthly); var t := LastSix(monthly);
      && (|tr| > 0 ==> tr[0].growth == 0.0)
      && (forall i :: 0 < i < |tr| && t[i - 1].amount <= 0.0 ==> tr[i].growth == 0.0)
  {
    var t := LastSix(monthly);
    var tr := Trends(monthly);
    forall i | 0 <= i < |tr| && (i == 0 || t[i - 1].amount <= 0.0) ensures tr[i].growth == 0.0 {
      GrowthZero(t, i);
    }
  }

  lemma GrowthZero(t: seq<MonthAmount>, i: nat)
    requires i < |t| && (i == 0 || t[i - 1].amount <= 0.0)
    ensures Growth(t, i) == 0.0
  {
  }

  /** After a month with a positive amount, the trend's growth is the percentage change, with the sign of the change. */
  lemma TrendsGrowth(monthly: seq<MonthAmount>)
    ensures var tr := Trends(monthly); var t := LastSix(monthly);
      forall i :: 0 < i < |tr| && t[i - 1].amount > 0.0 ==> PercentChange(t[i - 1].amount, tr[i].amount, tr[i].growth)
  {
    var t := LastSix(monthly);
    var tr := Trends(monthly);
    forall i | 0 < i < |tr| && t[i - 1].amount > 0.0
      ensures PercentChange(t[i - 1].amount, tr[i].amount, tr[i].growth)
    {
      GrowthRule(t, i);
    }
  }

  // ---------------------------------------------------------------------------
  // The report

  datatype Report = Report(period: string, totalPayroll: real, totalEmployees: nat,
                           departmentBreakdown: seq<DepartmentEntry>, salaryDistribution: seq<Bucket>,
                           trends: seq<Trend>, topEarners: seq<Earner>, rows: seq<Row>)

  /**
   * `buildReportData` once each employee's attendance has been fetched;
   * `range` is the month of a monthly report and `holidays` the cached
   * holidays of its year.
   */
  method BuildReportData(inputs: seq<RowInput>, period: string, generatedAt: string,
                         range: Option<MonthRange>, holidays: seq<Holiday>, offset: int,
                         departmentStats: seq<(string, int)>, monthlyTrend: seq<MonthAmount>) returns (r: Report)
    ensures |r.rows| == |inputs| == r.totalEmployees
    ensures forall k :: 0 <= k < |r.rows| ==>
      r.rows[k] == RowOf(inputs[k], AttendanceOf(inputs[k].fetched, range, RangeWorkDays(range, holidays, offset)),
                         period, generatedAt)
    ensures r.totalPayroll == SumNets(r.rows)
    ensures r.departmentBreakdown == DepartmentBreakdown(departmentStats, r.rows)
    ensures r.salaryDistribution == SalaryDistribution(r.rows, |inputs|)
    ensures r.topEarners == TopEarners(r.rows)
    ensures r.trends == Trends(monthlyTrend)
  {
    var rows, total := BuildRows(inputs, period, generatedAt, range, holidays, offset);
    r := Report(period, total, |inputs|, DepartmentBreakdown(departmentStats, rows),
                SalaryDistribution(rows, |inputs|), Trends(monthlyTrend), TopEarners(rows), rows);
  }
}
