/**
 * The payroll computation engine: the built-in holiday calendar, the
 * active-holiday lookup and religion gate, attendance proration, overtime,
 * tip eligibility, the three Philippine statutory deductions gated on the
 * shape of the member number, and the assembly of the pay slip.
 *
 * Money is exact `real` arithmetic. The tip-pool share, which the program
 * draws at random, is a parameter.
 */
module Payroll {
  import opened Wrappers
  import opened Types
  import opened Text
  import JsNumber
  import Civil

  const AllGroups: seq<string> := ["islam", "kristen", "katolik", "hindu", "budha", "other"]

  /** The built-in holiday calendar for 2024-2025, in its listed order. */
  const HolidayCalendar: seq<Holiday> := [
    Holiday("idul_fitri_2024", "Idul Fitri 2024", "2024-04-10", "idul_fitri",
      "Hari Raya Idul Fitri 1445 H", 1.0, true, ["islam"], None, None),
    Holiday("natal_2024", "Natal 2024", "2024-12-25", "natal",
      "Hari Raya Natal", 0.5, true, ["kristen", "katolik"], None, None),
    Holiday("nyepi_2024", "Nyepi 2024", "2024-03-11", "nyepi",
      "Hari Raya Nyepi (Tahun Baru Saka)", 0.5, true, ["hindu"], None, None),
    Holiday("waisak_2024", "Waisak 2024", "2024-05-23", "waisak",
      "Hari Raya Waisak", 0.3, true, ["budha"], None, None),
    Holiday("anniversary_2024", "Bonus Tahunan September 2024", "2024-09-15", "anniversary",
      "Bonus Tahunan Enjoy Dive", 0.5, true, AllGroups, None, None),
    Holiday("idul_fitri_2025", "Idul Fitri 2025", "2025-03-30", "idul_fitri",
      "Hari Raya Idul Fitri 1446 H", 1.0, true, ["islam"], None, None),
    Holiday("anniversary_2025", "Bonus Tahunan September 2025", "2025-09-15", "anniversary",
      "Bonus Tahunan Enjoy Dive", 0.5, true, AllGroups, None, None)
  ]

  /** Attendance aggregated over the period; every field may be absent. */
  datatype AttendancePeriod = AttendancePeriod(
    workDays: Option<real>,
    daysPresent: Option<real>,
    expectedHours: Option<real>,
    hoursWorked: Option<real>,
    overtimeHours: Option<real>)

  /** `(x as number) || 0` for an optional amount. */
  function OrZero(x: Option<real>): real {
    x.GetOr(0.0)
  }

  function Max(a: real, b: real): real { if a >= b then a else b }
  function Min(a: real, b: real): real { if a <= b then a else b }

  // ---------------------------------------------------------------------------
  // Active holiday for a period

  /** `period.split("/").map(Number)`: the month and the year of a `month/year` period. */
  datatype PeriodKey = PeriodKey(month: JsNumber.Num, year: JsNumber.Num)

  function ParsePeriod(period: string): PeriodKey {
    var parts := Split(period, '/');
    PeriodKey(
      JsNumber.StringToNumber(parts[0]),
      if |parts| >= 2 then JsNumber.StringToNumber(parts[1]) else JsNumber.NaN)
  }

  /** A period written `m/y` in plain numerals is read as month `m` of year `y`. */
  lemma ParsePeriodOfNumerals(m: nat, y: nat)
    ensures ParsePeriod(JsNumber.NatToString(m) + "/" + JsNumber.NatToString(y))
         == PeriodKey(JsNumber.Finite(m as real), JsNumber.Finite(y as real))
  {
    var ms, ys := JsNumber.NatToString(m), JsNumber.NatToString(y);
    assert '/' !in ms && '/' !in ys;
    assert ms + "/" + ys == ms + ['/'] + ys;
    SplitTwo(ms, '/', ys);
    JsNumber.StringToNumberOfNatToString(m);
    JsNumber.StringToNumberOfNatToString(y);
  }

  /** The holiday's date falls in the period's year and month. */
  predicate InPeriod(h: Holiday, key: PeriodKey) {
    match Civil.ParseIsoDate(h.date)
    case None => false
    case Some(d) => key.year == JsNumber.Finite(d.year as real) && key.month == JsNumber.Finite(d.month as real)
  }

  predicate ActiveIn(h: Holiday, key: PeriodKey) {
    h.isActive && InPeriod(h, key)
  }

  /** The index of the first holiday of `pool` active in the period, or `|pool|` when there is none. */
  function FirstActiveIndex(pool: seq<Holiday>, key: PeriodKey): (i: nat)
    ensures i <= |pool|
    ensures forall j :: 0 <= j < i ==> !ActiveIn(pool[j], key)
    ensures i < |pool| ==> ActiveIn(pool[i], key)
  {
    if pool == [] then 0
    else if ActiveIn(pool[0], key) then 0
    else 1 + FirstActiveIndex(pool[1..], key)
  }

  /** `pool.find(...) || null`: the first active holiday of the period, if any. */
  function FirstActiveInPeriod(pool: seq<Holiday>, key: PeriodKey): Option<Holiday> {
    var i := FirstActiveIndex(pool, key);
    if i < |pool| then Some(pool[i]) else None
  }

  /** `getActiveHolidayForPeriod`: the lookup always searches the built-in calendar. */
  function GetActiveHolidayForPeriod(period: string): Option<Holiday> {
    FirstActiveInPeriod(HolidayCalendar, ParsePeriod(period))
  }

  /**
   * The lookup finds a holiday exactly when some holiday of the pool is active
   * in the period, and then it is the first such one in pool order.
   */
  lemma FirstActiveInPeriodRule(pool: seq<Holiday>, key: PeriodKey)
    ensures FirstActiveInPeriod(pool, key).Some? <==> exists i :: 0 <= i < |pool| && ActiveIn(pool[i], key)
    ensures forall i :: 0 <= i < |pool| && ActiveIn(pool[i], key) && (forall j :: 0 <= j < i ==> !ActiveIn(pool[j], key))
                        ==> FirstActiveInPeriod(pool, key) == Some(pool[i])
  {
    var k := FirstActiveIndex(pool, key);
    forall i | 0 <= i < |pool| && ActiveIn(pool[i], key) && (forall j :: 0 <= j < i ==> !ActiveIn(pool[j], key))
      ensures k == i
    {
      FirstActiveIndexIs(pool, key, i);
    }
  }

  lemma FirstActiveIndexIs(pool: seq<Holiday>, key: PeriodKey, i: nat)
    requires i < |pool| && ActiveIn(pool[i], key)
    requires forall j :: 0 <= j < i ==> !ActiveIn(pool[j], key)
    ensures FirstActiveIndex(pool, key) == i
  {
  }

  // ---------------------------------------------------------------------------
  // Holiday allowance

  datatype HolidayAllowance = HolidayAllowance(amount: real, holidayType: Option<string>)

  /**
   * The religion gate over a given pool: the seeded holiday allowance with no
   * type, unless the first active holiday of the period lists the employee's
   * religion; then the seeded amount plus the nominal base salary times the multiplier.
   */
  function HolidayAllowanceFrom(e: Employee, pool: seq<Holiday>, key: PeriodKey): HolidayAllowance {
    var seeded := OrZero(e.allowances.holidayAllowance);
    match FirstActiveInPeriod(pool, key)
    case None => HolidayAllowance(seeded, None)
    case Some(h) =>
      if e.religion in h.eligibleReligions then
        HolidayAllowance(seeded + e.baseSalary * h.allowanceMultiplier, Some(h.holidayType))
      else HolidayAllowance(seeded, None)
  }

  /** `calculateHolidayAllowance`. */
  function CalculateHolidayAllowance(e: Employee, period: string): HolidayAllowance {
    HolidayAllowanceFrom(e, HolidayCalendar, ParsePeriod(period))
  }

  /**
   * The holiday allowance carries a type exactly when some holiday of the pool
   * is active in the period, no earlier one is, and it lists the employee's
   * religion; the amount is then seeded + baseSalary * multiplier, and otherwise
   * just the seeded amount.
   */
  lemma {:induction false} HolidayAllowanceRule(e: Employee, pool: seq<Holiday>, key: PeriodKey)
    ensures var r := HolidayAllowanceFrom(e, pool, key);
            var seeded := OrZero(e.allowances.holidayAllowance);
            && (r.holidayType.Some? <==>
                 exists i :: 0 <= i < |pool| && ActiveIn(pool[i], key)
                   && (forall j :: 0 <= j < i ==> !ActiveIn(pool[j], key))
                   && e.religion in pool[i].eligibleReligions)
            && (r.holidayType.None? ==> r.amount == seeded)
            && (forall i :: (0 <= i < |pool| && ActiveIn(pool[i], key)
                   && (forall j :: 0 <= j < i ==> !ActiveIn(pool[j], key))
                   && e.religion in pool[i].eligibleReligions)
                   ==> (r.holidayType == Some(pool[i].holidayType)
                        && r.amount == seeded + e.baseSalary * pool[i].allowanceMultiplier))
  {
    var k := FirstActiveIndex(pool, key);
    assert forall i :: (0 <= i < |pool| && ActiveIn(pool[i], key) && (forall j :: 0 <= j < i ==> !ActiveIn(pool[j], key)))
                       ==> i == k;
  }

  /** With a non-negative seed and base, and holidays of non-negative multiplier, the allowance is non-negative. */
  lemma HolidayAllowanceNonNegative(e: Employee, pool: seq<Holiday>, key: PeriodKey)
    requires OrZero(e.allowances.holidayAllowance) >= 0.0 && e.baseSalary >= 0.0
    requires forall i :: 0 <= i < |pool| ==> pool[i].allowanceMultiplier >= 0.0
    ensures HolidayAllowanceFrom(e, pool, key).amount >= 0.0
  {
    var k := FirstActiveIndex(pool, key);
    if k < |pool| {
      assert pool[k].allowanceMultiplier >= 0.0;
      assert e.baseSalary * pool[k].allowanceMultiplier >= 0.0;
    }
  }

  /** Every holiday of the built-in calendar has a non-negative multiplier. */
  lemma CalendarMultipliersNonNegative()
    ensures forall i :: 0 <= i < |HolidayCalendar| ==> HolidayCalendar[i].allowanceMultiplier >= 0.0
  {
  }

  /** Eligibility is plain membership: a holiday listing only "all" pays nothing to an employee of any named religion. */
  lemma HolidayAllowanceNoWildcard(e: Employee, h: Holiday, key: PeriodKey)
    requires ActiveIn(h, key) && h.eligibleReligions == ["all"] && e.religion != "all"
    ensures HolidayAllowanceFrom(e, [h], key) == HolidayAllowance(OrZero(e.allowances.holidayAllowance), None)
  {
  }

  // ---------------------------------------------------------------------------
  // Overtime

  /** `attendance?.overtimeHours ?? 0`. */
  function OvertimeHoursOf(a: Option<AttendancePeriod>): real {
    if a.Some? then a.value.overtimeHours.GetOr(0.0) else 0.0
  }

  /** `attendance?.expectedHours ?? 160`. */
  function ExpectedHoursOf(a: Option<AttendancePeriod>): real {
    if a.Some? then a.value.expectedHours.GetOr(160.0) else 160.0
  }

  /** The hourly overtime rate: the employee's own when non-zero, else 1.25 times the base hourly rate. */
  function OvertimeRate(e: Employee, a: Option<AttendancePeriod>): real {
    var expected := ExpectedHoursOf(a);
    var baseHourly := if expected > 0.0 then e.baseSalary / expected else 0.0;
    if e.overtimeRate.Some? && e.overtimeRate.value != 0.0 then e.overtimeRate.value else baseHourly * 1.25
  }

  /** Overtime pay: negative hours count as none. */
  function OvertimePay(e: Employee, a: Option<AttendancePeriod>): (pay: real)
    ensures OvertimeRate(e, a) >= 0.0 ==> pay >= 0.0
    ensures OvertimeHoursOf(a) <= 0.0 ==> pay == 0.0
  {
    Max(0.0, OvertimeHoursOf(a)) * OvertimeRate(e, a)
  }

  /**
   * Without an explicit rate the overtime rate is 1.25 times baseSalary over the
   * expected hours (160 when not given), and nothing when the expected hours
   * are not positive; an explicit non-zero rate is used as it is.
   */
  lemma OvertimeRateRule(e: Employee, a: Option<AttendancePeriod>)
    ensures e.overtimeRate.Some? && e.overtimeRate.value != 0.0 ==> OvertimeRate(e, a) == e.overtimeRate.value
    ensures (e.overtimeRate.None? || e.overtimeRate.value == 0.0) && a.None?
            ==> OvertimeRate(e, a) == e.baseSalary / 128.0
    ensures (e.overtimeRate.None? || e.overtimeRate.value == 0.0) && ExpectedHoursOf(a) <= 0.0
            ==> OvertimeRate(e, a) == 0.0
    ensures e.baseSalary >= 0.0 && (e.overtimeRate.None? || e.overtimeRate.value >= 0.0) ==> OvertimeRate(e, a) >= 0.0
  {
    if a.None? && (e.overtimeRate.None? || e.overtimeRate.value == 0.0) {
      assert e.baseSalary / 160.0 * 1.25 == e.baseSalary / 128.0;
    }
  }

  /** With no attendance there is no overtime at all. */
  lemma OvertimeWithoutAttendance(e: Employee)
    ensures OvertimeHoursOf(None) == 0.0 && OvertimePay(e, None) == 0.0
  {
  }

  // ---------------------------------------------------------------------------
  // Proration

  /** The base salary scaled by days present over work days, when both counts are given. */
  function ProratedBase(e: Employee, a: Option<AttendancePeriod>): real {
    if a.Some? && a.value.workDays.Some? && a.value.daysPresent.Some? then
      var wd := Max(1.0, a.value.workDays.value);
      var dp := Max(0.0, Min(wd, a.value.daysPresent.value));
      e.baseSalary * dp / wd
    else e.baseSalary
  }

  predicate HasDayCounts(a: Option<AttendancePeriod>) {
    a.Some? && a.value.workDays.Some? && a.value.daysPresent.Some?
  }

  /** Without both day counts the full base salary is paid. */
  lemma ProrationNeedsBothCounts(e: Employee, a: Option<AttendancePeriod>)
    requires !HasDayCounts(a)
    ensures ProratedBase(e, a) == e.baseSalary
  {
  }

  /** With both counts the prorated base lies between 0 and the base salary. */
  lemma ProratedBaseBounds(e: Employee, a: Option<AttendancePeriod>)
    requires e.baseSalary >= 0.0
    ensures 0.0 <= ProratedBase(e, a) <= e.baseSalary
  {
    if HasDayCounts(a) {
      var wd := Max(1.0, a.value.workDays.value);
      var dp := Max(0.0, Min(wd, a.value.daysPresent.value));
      ScaledBetween(e.baseSalary, dp, wd);
    }
  }

  /** A share dp/wd of a non-negative amount, with 0 <= dp <= wd, lies between 0 and the amount. */
  lemma ScaledBetween(b: real, dp: real, wd: real)
    requires b >= 0.0 && wd >= 1.0 && 0.0 <= dp <= wd
    ensures 0.0 <= b * dp / wd <= b
  {
    var f := dp / wd;
    assert f * wd == dp;
    assert 0.0 <= f <= 1.0;
    assert b * dp / wd == b * f;
    MulBetween(b, f);
  }

  lemma MulBetween(b: real, f: real)
    requires b >= 0.0 && 0.0 <= f <= 1.0
    ensures 0.0 <= b * f <= b
  {
  }

  /** For `wd >= 1` and `0 <= dp <= wd` the prorated base is exactly baseSalary * dp / wd. */
  lemma ProratedBaseInRange(e: Employee, wd: real, dp: real, a: AttendancePeriod)
    requires wd >= 1.0 && 0.0 <= dp <= wd
    requires a.workDays == Some(wd) && a.daysPresent == Some(dp)
    ensures ProratedBase(e, Some(a)) == e.baseSalary * dp / wd
    ensures dp == 0.0 ==> ProratedBase(e, Some(a)) == 0.0
    ensures dp == wd ==> ProratedBase(e, Some(a)) == e.baseSalary
  {
  }

  /** More days present than work days is paid as full attendance: days present is clamped to work days. */
  lemma ProratedBaseClamped(e: Employee, a: AttendancePeriod, b: AttendancePeriod)
    requires a.workDays.Some? && a.workDays.value >= 1.0 && a.daysPresent.Some? && a.daysPresent.value > a.workDays.value
    requires b.workDays == a.workDays && b.daysPresent == Some(a.workDays.value)
    ensures ProratedBase(e, Some(a)) == ProratedBase(e, Some(b))
  {
  }

  /** A non-positive work-day count is treated as one work day. */
  lemma ProratedBaseWorkDaysFloor(e: Employee, a: AttendancePeriod, b: AttendancePeriod)
    requires a.workDays.Some? && a.workDays.value < 1.0 && a.daysPresent.Some?
    requires b.workDays == Some(1.0) && b.daysPresent == a.daysPresent
    ensures ProratedBase(e, Some(a)) == ProratedBase(e, Some(b))
  {
  }

  // ---------------------------------------------------------------------------
  // Tips

  const TipPositions: seq<string> := [
    "dive master", "senior dive master", "driver", "senior driver",
    "diving instructor", "senior diving instructor"]

  /** `eligiblePositions.some((pos) => position.toLowerCase().includes(pos))`. */
  predicate TipEligiblePosition(position: string) {
    exists k :: 0 <= k < |TipPositions| && Includes(ToLower(position), TipPositions[k])
  }

  /** The seeded tips, plus the pool share for a non-management employee in an eligible role. */
  function Tips(e: Employee, poolShare: real): real {
    var seeded := OrZero(e.allowances.tips);
    if !e.isManagement && TipEligiblePosition(e.position) then seeded + poolShare else seeded
  }

  /** Management never receives pool tips, whatever the position. */
  lemma TipsForManagement(e: Employee, poolShare: real)
    requires e.isManagement
    ensures Tips(e, poolShare) == OrZero(e.allowances.tips)
  {
  }

  /** A non-management employee receives the pool share exactly when the position is eligible. */
  lemma TipsForStaff(e: Employee, poolShare: real)
    requires !e.isManagement
    ensures Tips(e, poolShare) == OrZero(e.allowances.tips) + (if TipEligiblePosition(e.position) then poolShare else 0.0)
  {
  }

  /**
   * The three "senior" roles add nothing: a position is eligible exactly when,
   * lowercased, it contains "dive master", "driver" or "diving instructor".
   */
  lemma TipEligibleThreeRoles(position: string)
    ensures TipEligiblePosition(position) <==>
      var l := ToLower(position);
      Includes(l, "dive master") || Includes(l, "driver") || Includes(l, "diving instructor")
  {
    var l := ToLower(position);
    SeniorPositions();
    if TipEligiblePosition(position) {
      var k :| 0 <= k < |TipPositions| && Includes(l, TipPositions[k]);
      if k % 2 == 1 {
        IncludesSuffix(l, "senior ", TipPositions[k - 1]);
      }
    }
  }

  /** Every odd entry of the list is the previous one prefixed with "senior ". */
  lemma SeniorPositions()
    ensures TipPositions[0] == "dive master" && TipPositions[2] == "driver" && TipPositions[4] == "diving instructor"
    ensures forall k :: 0 <= k < |TipPositions| && k % 2 == 1 ==> TipPositions[k] == "senior " + TipPositions[k - 1]
  {
  }

  /** A string containing `p + q` contains `q`. */
  lemma IncludesSuffix(s: string, p: string, q: string)
    requires Includes(s, p + q)
    ensures Includes(s, q)
  {
    IncludesIffOccurs(s, p + q);
    var k: nat :| OccursAt(s, p + q, k);
    assert s[k + |p|..k + |p| + |q|] == (p + q)[|p|..];
    assert OccursAt(s, q, k + |p|);
    IncludesIffOccurs(s, q);
  }

  // ---------------------------------------------------------------------------
  // Statutory deductions

  /** Runs of digits of the given lengths, separated by single dashes. */
  predicate DigitGroups(s: string, lens: seq<nat>)
    decreases |lens|
  {
    if lens == [] then false
    else if |lens| == 1 then |s| == lens[0] && AllDigits(s)
    else |s| > lens[0] && AllDigits(s[..lens[0]]) && s[lens[0]] == '-' && DigitGroups(s[lens[0] + 1..], lens[1..])
  }

  /** `^(\d{2}-\d{7}-\d{1}|\d{10})$` */
  predicate SssShape(t: string) { DigitGroups(t, [2, 7, 1]) || DigitGroups(t, [10]) }
  /** `^(\d{2}-\d{9}-\d{1}|\d{12})$` */
  predicate PhilHealthShape(t: string) { DigitGroups(t, [2, 9, 1]) || DigitGroups(t, [12]) }
  /** `^(\d{4}-\d{4}-\d{4}|\d{12})$` */
  predicate PagIbigShape(t: string) { DigitGroups(t, [4, 4, 4]) || DigitGroups(t, [12]) }

  /** `!!val && regex.test(val.trim())`. */
  predicate ValidSss(v: Option<string>) { v.Some? && v.value != [] && SssShape(Trim(v.value)) }
  predicate ValidPhilHealth(v: Option<string>) { v.Some? && v.value != [] && PhilHealthShape(Trim(v.value)) }
  predicate ValidPagIbig(v: Option<string>) { v.Some? && v.value != [] && PagIbigShape(Trim(v.value)) }

  /** `s` has length `a + b + c + 2`, dashes at offsets `a` and `a + b + 1`, and digits everywhere else. */
  predicate Dashed(s: string, a: nat, b: nat, c: nat) {
    && |s| == a + b + c + 2
    && s[a] == '-' && s[a + b + 1] == '-'
    && forall i :: 0 <= i < |s| && i != a && i != a + b + 1 ==> IsDigit(s[i])
  }

  /** The two accepted shapes, position by position. */
  lemma DigitGroupsShapes(s: string, a: nat, b: nat, c: nat, n: nat)
    ensures DigitGroups(s, [n]) <==> |s| == n && AllDigits(s)
    ensures DigitGroups(s, [a, b, c]) <==> Dashed(s, a, b, c)
  {
    assert [a, b, c][1..] == [b, c] && [b, c][1..] == [c];
    if |s| > a + b + 1 {
      var s1 := s[a + 1..];
      var s2 := s1[b + 1..];
      assert s1[b] == s[a + b + 1];
      assert s2 == s[a + b + 2..];
      assert DigitGroups(s, [a, b, c]) == (AllDigits(s[..a]) && s[a] == '-' && DigitGroups(s1, [b, c]));
      assert DigitGroups(s1, [b, c]) == (AllDigits(s1[..b]) && s1[b] == '-' && DigitGroups(s2, [c]));
      if Dashed(s, a, b, c) {
        forall i | 0 <= i < a ensures IsDigit(s[..a][i]) { assert s[..a][i] == s[i]; }
        forall i | 0 <= i < b ensures IsDigit(s1[..b][i]) { assert s1[..b][i] == s[a + 1 + i]; }
        forall i | 0 <= i < c ensures IsDigit(s2[i]) { assert s2[i] == s[a + b + 2 + i]; }
      }
      if DigitGroups(s, [a, b, c]) {
        forall i | 0 <= i < |s| && i != a && i != a + b + 1 ensures IsDigit(s[i]) {
          if i < a { assert s[i] == s[..a][i]; }
          else if i < a + b + 1 { assert s[i] == s1[..b][i - a - 1]; }
          else { assert s[i] == s2[i - a - b - 2]; }
        }
      }
    }
  }

  /** An SSS number is accepted exactly in the forms `dd-ddddddd-d` and `dddddddddd`, around any whitespace. */
  lemma SssAccepted(v: string)
    ensures ValidSss(Some(v)) <==> Dashed(Trim(v), 2, 7, 1) || (|Trim(v)| == 10 && AllDigits(Trim(v)))
  {
    DigitGroupsShapes(Trim(v), 2, 7, 1, 10);
  }

  /** A PhilHealth number is accepted exactly in the forms `dd-ddddddddd-d` and twelve digits. */
  lemma PhilHealthAccepted(v: string)
    ensures ValidPhilHealth(Some(v)) <==> Dashed(Trim(v), 2, 9, 1) || (|Trim(v)| == 12 && AllDigits(Trim(v)))
  {
    DigitGroupsShapes(Trim(v), 2, 9, 1, 12);
  }

  /** A Pag-IBIG number is accepted exactly in the forms `dddd-dddd-dddd` and twelve digits. */
  lemma PagIbigAccepted(v: string)
    ensures ValidPagIbig(Some(v)) <==> Dashed(Trim(v), 4, 4, 4) || (|Trim(v)| == 12 && AllDigits(Trim(v)))
  {
    DigitGroupsShapes(Trim(v), 4, 4, 4, 12);
  }

  /** SSS: 4.5% of gross, with gross capped at 30000. */
  function SssContribution(gross: real): (r: real)
    ensures r <= 1350.0
    ensures gross >= 0.0 ==> r >= 0.0
    ensures gross >= 30000.0 ==> r == 1350.0
  {
    Min(gross, 30000.0) * 0.045
  }

  /** PhilHealth: 2.5% of gross capped at 200000, at most 10000; the 2.5% reaches only 5000, so that cap never binds. */
  function PhilHealthContribution(gross: real): (r: real)
    ensures r <= 5000.0
    ensures r == Min(gross, 200000.0) * 0.025
    ensures gross >= 0.0 ==> r >= 0.0
  {
    Min(Min(gross, 200000.0) * 0.025, 10000.0)
  }

  /** Pag-IBIG: 2% of gross, at most 100. */
  function PagIbigContribution(gross: real): (r: real)
    ensures r <= 100.0
    ensures gross >= 0.0 ==> r >= 0.0
    ensures gross >= 5000.0 ==> r == 100.0
    ensures gross <= 5000.0 ==> r == gross * 0.02
  {
    Min(gross * 0.02, 100.0)
  }

  datatype Statutory = Statutory(sss: real, philHealth: real, pagIbig: real)

  /** Each scheme is charged only when its member number has an accepted shape. */
  function StatutoryDeductions(e: Employee, gross: real): Statutory {
    Statutory(
      if ValidSss(e.sssNumber) then SssContribution(gross) else 0.0,
      if ValidPhilHealth(e.philHealthNumber) then PhilHealthContribution(gross) else 0.0,
      if ValidPagIbig(e.pagIbigNumber) then PagIbigContribution(gross) else 0.0)
  }

  /** A missing or malformed member number means no deduction for that scheme; all three stay within their caps. */
  lemma StatutoryRule(e: Employee, gross: real)
    ensures var st := StatutoryDeductions(e, gross);
      && (!ValidSss(e.sssNumber) ==> st.sss == 0.0)
      && (!ValidPhilHealth(e.philHealthNumber) ==> st.philHealth == 0.0)
      && (!ValidPagIbig(e.pagIbigNumber) ==> st.pagIbig == 0.0)
      && st.sss <= 1350.0 && st.philHealth <= 5000.0 && st.pagIbig <= 100.0
      && (gross >= 0.0 ==> st.sss >= 0.0 && st.philHealth >= 0.0 && st.pagIbig >= 0.0)
  {
  }

  // ---------------------------------------------------------------------------
  // The pay slip

  /** `"PS-" + employee.id + "-" + period` with every `/` removed. */
  function PaySlipId(employeeId: string, period: string): string {
    "PS-" + employeeId + "-" + RemoveAll(period, '/')
  }

  /** The deduction lines of a slip on the given gross: the employee's own deductions, then the statutory ones. */
  function DeductionsOf(e: Employee, gross: real): DeductionBreakdown {
    var st := StatutoryDeductions(e, gross);
    var d := e.deductions;
    var total := OrZero(d.tax) + OrZero(d.insurance) + OrZero(d.other) + OrZero(d.cooperativeFund)
                 + OrZero(d.healthInsurance) + OrZero(d.loanDeduction) + st.sss + st.philHealth + st.pagIbig;
    DeductionBreakdown(OrZero(d.tax), OrZero(d.insurance), OrZero(d.other), OrZero(d.cooperativeFund),
      OrZero(d.healthInsurance), OrZero(d.loanDeduction), st.sss, st.philHealth, st.pagIbig, total)
  }

  /** The allowance lines of a slip: the seeded ones, the pool tips, the holiday allowance and the overtime pay. */
  function AllowancesOf(e: Employee, period: string, attendance: Option<AttendancePeriod>, poolShare: real): AllowanceBreakdown {
    var overtimePay := OvertimePay(e, attendance);
    var holiday := CalculateHolidayAllowance(e, period);
    var tips := Tips(e, poolShare);
    var transport, meal, bonus := OrZero(e.allowances.transport), OrZero(e.allowances.meal), OrZero(e.allowances.bonus);
    AllowanceBreakdown(transport, meal, bonus, overtimePay, tips, holiday.amount,
      transport + meal + bonus + tips + holiday.amount + overtimePay)
  }

  /** Gross salary: the prorated base plus every allowance. */
  function GrossOf(e: Employee, period: string, attendance: Option<AttendancePeriod>, poolShare: real): real {
    ProratedBase(e, attendance) + AllowancesOf(e, period, attendance, poolShare).total
  }

  /** `calculatePayroll`. */
  function CalculatePayroll(e: Employee, period: string, attendance: Option<AttendancePeriod>,
                            poolShare: real, generatedAt: string): PaySlip
  {
    var gross := GrossOf(e, period, attendance, poolShare);
    var deductions := DeductionsOf(e, gross);
    PaySlip(
      PaySlipId(e.id, period), e.id, e, period, e.baseSalary, ProratedBase(e, attendance),
      AllowancesOf(e, period, attendance, poolShare), deductions,
      gross, gross - deductions.total, generatedAt, OvertimeHoursOf(attendance),
      CalculateHolidayAllowance(e, period).holidayType)
  }

  /** The totals agree with the breakdown they summarise: reading a slip back gives its own sums. */
  lemma PaySlipTotals(e: Employee, period: string, a: Option<AttendancePeriod>, poolShare: real, at: string)
    ensures var s := CalculatePayroll(e, period, a, poolShare, at);
      var al, de := s.allowances, s.deductions;
      && al.total == al.transport + al.meal + al.bonus + al.tips + al.holidayAllowance + al.overtime
      && de.total == de.tax + de.insurance + de.other + de.cooperativeFund + de.healthInsurance
                     + de.loanDeduction + de.sss + de.philHealth + de.pagIbig
      && s.grossSalary == s.proratedBase + al.total
      && s.netSalary == s.grossSalary - de.total
      && s.netSalary == s.proratedBase + al.total - de.total
  {
  }

  /** Every breakdown line is the component rule applied to the employee, the period and the attendance. */
  lemma PaySlipComponents(e: Employee, period: string, a: Option<AttendancePeriod>, poolShare: real, at: string)
    ensures var s := CalculatePayroll(e, period, a, poolShare, at);
      && s.baseSalary == e.baseSalary && s.employeeId == e.id && s.period == period
      && s.proratedBase == ProratedBase(e, a)
      && s.allowances.transport == OrZero(e.allowances.transport)
      && s.allowances.meal == OrZero(e.allowances.meal)
      && s.allowances.bonus == OrZero(e.allowances.bonus)
      && s.allowances.overtime == OvertimePay(e, a)
      && s.allowances.tips == Tips(e, poolShare)
      && s.allowances.holidayAllowance == CalculateHolidayAllowance(e, period).amount
      && s.holidayType == CalculateHolidayAllowance(e, period).holidayType
      && s.deductions.tax == OrZero(e.deductions.tax)
      && s.deductions.insurance == OrZero(e.deductions.insurance)
      && s.deductions.other == OrZero(e.deductions.other)
      && s.deductions.cooperativeFund == OrZero(e.deductions.cooperativeFund)
      && s.deductions.healthInsurance == OrZero(e.deductions.healthInsurance)
      && s.deductions.loanDeduction == OrZero(e.deductions.loanDeduction)
      && s.id == PaySlipId(e.id, period)
      && Statutory(s.deductions.sss, s.deductions.philHealth, s.deductions.pagIbig) == StatutoryDeductions(e, s.grossSalary)
      && s.overtimeHours == OvertimeHoursOf(a)
  {
    SlipDeductions(e, period, a, poolShare, at);
  }

  /** The slip's deductions are those of its own gross salary. */
  lemma SlipDeductions(e: Employee, period: string, a: Option<AttendancePeriod>, poolShare: real, at: string)
    ensures var s := CalculatePayroll(e, period, a, poolShare, at);
      s.deductions == DeductionsOf(e, s.grossSalary)
  {
  }

  /** Without attendance the full base salary is paid and there is no overtime. */
  lemma PaySlipWithoutAttendance(e: Employee, period: string, poolShare: real, at: string)
    ensures var s := CalculatePayroll(e, period, None, poolShare, at);
      s.proratedBase == e.baseSalary && s.overtimeHours == 0.0 && s.allowances.overtime == 0.0
  {
  }

  /** The holiday allowance is computed from the nominal base salary: attendance does not change it. */
  lemma HolidayAllowanceIgnoresAttendance(e: Employee, period: string, a: Option<AttendancePeriod>,
                                          b: Option<AttendancePeriod>, poolShare: real, at: string)
    ensures CalculatePayroll(e, period, a, poolShare, at).allowances.holidayAllowance
         == CalculatePayroll(e, period, b, poolShare, at).allowances.holidayAllowance
  {
  }

  /** Net salary is not clamped: deductions beyond gross give a negative net. */
  lemma NetSalaryMayBeNegative(e: Employee, period: string, poolShare: real, at: string)
    requires e.baseSalary == 100.0 && e.allowances == Allowances(None, None, None, None, None, None)
    requires e.isManagement && e.overtimeRate.None?
    requires e.deductions == Deductions(Some(1000.0), None, None, None, None, None, None)
    requires e.sssNumber.None? && e.philHealthNumber.None? && e.pagIbigNumber.None?
    requires CalculateHolidayAllowance(e, period).amount == 0.0
    ensures CalculatePayroll(e, period, None, poolShare, at).netSalary == -900.0
  {
  }

  /** With non-negative inputs every earning and every statutory deduction is non-negative. */
  lemma PaySlipNonNegative(e: Employee, period: string, a: Option<AttendancePeriod>, poolShare: real, at: string)
    requires e.baseSalary >= 0.0 && poolShare >= 0.0
    requires e.overtimeRate.None? || e.overtimeRate.value >= 0.0
    requires OrZero(e.allowances.transport) >= 0.0 && OrZero(e.allowances.meal) >= 0.0
    requires OrZero(e.allowances.bonus) >= 0.0 && OrZero(e.allowances.tips) >= 0.0
    requires OrZero(e.allowances.holidayAllowance) >= 0.0
    ensures var s := CalculatePayroll(e, period, a, poolShare, at);
      && 0.0 <= s.proratedBase <= e.baseSalary
      && s.allowances.overtime >= 0.0 && s.allowances.total >= 0.0
      && s.grossSalary >= 0.0
      && 0.0 <= s.deductions.sss <= 1350.0 && 0.0 <= s.deductions.philHealth <= 5000.0
      && 0.0 <= s.deductions.pagIbig <= 100.0
  {
    var s := CalculatePayroll(e, period, a, poolShare, at);
    PaySlipComponents(e, period, a, poolShare, at);
    PaySlipTotals(e, period, a, poolShare, at);
    ProratedBaseBounds(e, a);
    OvertimeRateRule(e, a);
    CalendarMultipliersNonNegative();
    HolidayAllowanceNonNegative(e, HolidayCalendar, ParsePeriod(period));
    assert s.allowances.tips >= 0.0;
    assert s.allowances.overtime >= 0.0;
    assert s.allowances.total >= 0.0;
    StatutoryRule(e, s.grossSalary);
  }

  /** A well-formed SSS number on a 30000 gross is charged the full 1350, leaving 28650. */
  lemma SssOnThirtyThousand(e: Employee, period: string, poolShare: real, at: string)
    requires e.baseSalary == 30000.0 && e.allowances == Allowances(None, None, None, None, None, None)
    requires e.isManagement && e.overtimeRate.None?
    requires e.deductions == Deductions(None, None, None, None, None, None, None)
    requires ValidSss(e.sssNumber) && e.philHealthNumber.None? && e.pagIbigNumber.None?
    requires CalculateHolidayAllowance(e, period).amount == 0.0
    ensures var s := CalculatePayroll(e, period, None, poolShare, at);
      s.grossSalary == 30000.0 && s.deductions.sss == 1350.0 && s.deductions.total == 1350.0 && s.netSalary == 28650.0
  {
  }

  /** Five overtime hours for a 16000 base over the default 160 hours, with no own rate, pay 625. */
  lemma OvertimeFiveHours(e: Employee, a: AttendancePeriod)
    requires e.baseSalary == 16000.0 && e.overtimeRate.None?
    requires a.expectedHours.None? && a.overtimeHours == Some(5.0)
    ensures OvertimePay(e, Some(a)) == 625.0
  {
  }

  /** Ten days present out of twenty halve a 16000 base to 8000. */
  lemma ProrationHalf(e: Employee, a: AttendancePeriod)
    requires e.baseSalary == 16000.0 && a.workDays == Some(20.0) && a.daysPresent == Some(10.0)
    ensures ProratedBase(e, Some(a)) == 8000.0
  {
  }

  /** The slip id carries no `/`: for a numeral period `m/y` it is `PS-<id>-<m><y>`. */
  lemma PaySlipIdOfPeriod(employeeId: string, m: nat, y: nat)
    ensures PaySlipId(employeeId, JsNumber.NatToString(m) + "/" + JsNumber.NatToString(y))
         == "PS-" + employeeId + "-" + JsNumber.NatToString(m) + JsNumber.NatToString(y)
  {
    var ms, ys := JsNumber.NatToString(m), JsNumber.NatToString(y);
    assert '/' !in ms && '/' !in ys;
    RemoveAllAppend(ms + "/", ys, '/');
    RemoveAllAppend(ms, "/", '/');
    RemoveAllNoOp(ms, '/');
    RemoveAllNoOp(ys, '/');
  }

  /** `getHolidayName`: the allowance label of a holiday type. */
  function GetHolidayName(holidayType: string): (name: string)
    ensures holidayType == "idul_fitri" ==> name == "Tunjangan Idul Fitri"
    ensures holidayType == "natal" ==> name == "Tunjangan Natal"
    ensures holidayType == "nyepi" ==> name == "Tunjangan Nyepi"
    ensures holidayType == "waisak" ==> name == "Tunjangan Waisak"
    ensures holidayType == "anniversary" ==> name == "Bonus Tahunan"
    ensures holidayType !in {"idul_fitri", "natal", "nyepi", "waisak", "anniversary"} ==> name == "Tunjangan Hari Raya"
  {
    if holidayType == "idul_fitri" then "Tunjangan Idul Fitri"
    else if holidayType == "natal" then "Tunjangan Natal"
    else if holidayType == "nyepi" then "Tunjangan Nyepi"
    else if holidayType == "waisak" then "Tunjangan Waisak"
    else if holidayType == "anniversary" then "Bonus Tahunan"
    else "Tunjangan Hari Raya"
  }
}
