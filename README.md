# Payroll core, modelled in Dafny

This project models the rule-based core of a small Philippine payroll web
application, and proves properties of that model. The application pays
employees monthly, tracks their attendance and imports public holidays.

The parts modelled are:

- **The payroll engine** (`payroll.dfy`). It finds the active holiday of a
  `month/year` period in the built-in holiday calendar. It applies the
  holiday allowance's religion gate and computes overtime pay, proration of
  the base salary by days present, tips eligibility and the allowance total.
  It charges the three statutory contributions (SSS, PhilHealth, Pag-IBIG),
  each only when the member number has an accepted shape. It computes the
  deduction total, gross and net pay and the pay-slip id, and maps a
  holiday type to its allowance label.
- **The browser attendance store** (`attendance_client.dfy`). A class holds
  the attendance records, leave requests and overtime requests.
  - Setting a day's times finds or creates one record per (employee, date)
    and recomputes hours, overtime, lateness and status.
  - Clocking in and out are idempotent.
  - Reading filters by employee and date range and sorts newest first.
  - Leave and overtime requests are appended and filtered.
- **The attendance API** (`attendance_api.dfy`). It models the
  server-side derivation of hours, overtime, lateness and status, the POST
  upsert by (employee, date) and the PUT fallbacks to stored values. It also
  models the defaults applied when a database row is mapped to its JSON
  shape. The database table is a class over a map from id to row.
- **The employees API** (`employees_api.dfy`). It models the e-mail pattern,
  the input validation messages, the page and page-size clamping of the
  listing, and the defaults of the row mapping. It also models the removal of
  undefined keys before a write, and the id checks of POST, PUT and DELETE
  over a table class.
- **Holiday import and cache** (`holidays.dfy`). This covers the mapping of
  a public-holiday entry to a calendar holiday, including the slug of its
  id. It also covers the lookup order of the holiday cache (global list,
  then the stored list for the year) and the cache-first rule of
  `ensureHolidaysHydrated`.
- **Report aggregation** (`reports.dfy`). This is the pure part of
  `buildReportData`:
  - counting work days with holidays excluded;
  - the per-employee attendance aggregate;
  - the report rows and the payroll total;
  - the department breakdown, salary buckets, top ten earners and the
    six-month trend.

Supporting modules:

| File | What it models |
|---|---|
| `wrappers.dfy` | `Option` |
| `text.dfy` | JavaScript's `trim`, `\s`, `toLowerCase`, `includes`, string `<`, `split`, `join` and `replace` |
| `jsnumber.dfy` | `Math.round`, `Number(string)`, `parseInt(s, 10)` and `String(n)` |
| `civil.dfy` | the proleptic Gregorian calendar: day numbers, weekdays, `YYYY-MM-DD` parsing |
| `types.dfy` | the employee, holiday and pay-slip records |

How the model represents values:

- Money and hours are `real`, not IEEE floats.
  - `Math.round(x)` is `floor(x + 0.5)`.
  - `Math.round(x * 100) / 100` is `Round2`.
- Instants are integer epoch milliseconds.
- Inputs the code takes from outside become parameters:
  - the current time and today's date;
  - the instant of 09:00 on the record's date;
  - the ids the database assigns;
  - the verdict of `Date.parse`, and the instant `new Date(date)` of an attendance day;
  - the result of the holiday fetch and whether local storage accepts a write;
  - the offset of local time from UTC, used by the work-day count;
  - the tip pool share, which the source draws with `Math.random`.

Behaviour of the code that the model keeps as it is, with a lemma showing it:

- Religion eligibility for the holiday allowance is plain membership. A
  holiday that lists only "all" pays nothing (`HolidayAllowanceNoWildcard`).
- The holiday allowance uses the nominal base salary, not the prorated one
  (`HolidayAllowanceIgnoresAttendance`).
- The PhilHealth cap of 10000 can never bind, because 2.5% of at most 200000
  is at most 5000 (`PhilHealthContribution`).
- The three "senior" tip roles add nothing, because each contains its junior
  role (`TipEligibleThreeRoles`).
- Net salary is not clamped and can be negative (`NetSalaryMayBeNegative`).
- The global holiday list answers every year (`LookupPrecedence`).
- A holiday listed twice is subtracted twice from the work days
  (`DuplicateHolidayCountsTwice`).
- The work-day count reads a holiday's date at midnight UTC but the range at
  local midnights. East of UTC, such as in the Philippines (UTC+8), a
  weekday holiday on the last day of the month is not subtracted
  (`SubtractedEastOfUtc`).
- A clock-in on a day that already has a clock-out does not recompute the
  hours (`TimeInIsSetTimeIn` covers only the other days).

## Model

| member | source | states |
|---|---|---|
| Payroll.ParsePeriodOfNumerals | src/utils/payroll.ts:94 | a period `m/y` written in numerals splits into month m and year y |
| Payroll.FirstActiveIndex | src/utils/payroll.ts:97-104 | the index returned is the first holiday that is active and dated in the period's year and month, or the pool length when none is |
| Payroll.FirstActiveInPeriodRule | src/utils/payroll.ts:91-107 | a holiday is found exactly when one of the pool is active in the period, and it is the first such one in pool order |
| Payroll.HolidayAllowanceRule | src/utils/payroll.ts:109-132 | a holiday type is set exactly when the first active holiday lists the employee's religion; the amount is then the seeded allowance plus base salary times the multiplier, otherwise just the seeded allowance |
| Payroll.HolidayAllowanceNoWildcard | src/utils/payroll.ts:120-122 | "all" in the eligible religions is not a wildcard: such a holiday pays only the seeded allowance |
| Payroll.HolidayAllowanceNonNegative | src/utils/payroll.ts:108-132 | over any pool whose multipliers are non-negative, a non-negative seed and base salary give a non-negative holiday allowance |
| Payroll.CalendarMultipliersNonNegative | src/utils/payroll.ts:4-89 | every holiday of the built-in calendar has a non-negative allowance multiplier |
| Payroll.OvertimePay | src/utils/payroll.ts:164-171 | overtime pay is non-negative when the rate is, and 0 when the overtime hours are not positive |
| Payroll.OvertimeRateRule | src/utils/payroll.ts:168-170 | a non-zero own rate is used as given; otherwise 1.25 × base/expected hours, with 160 expected hours by default (base/128) and 0 when the expected hours are not positive |
| Payroll.OvertimeWithoutAttendance | src/utils/payroll.ts:164 | without attendance there are no overtime hours and no overtime pay |
| Payroll.ProrationNeedsBothCounts | src/utils/payroll.ts:207-208 | unless both work days and days present are given, the full base salary is paid |
| Payroll.ProratedBaseBounds | src/utils/payroll.ts:208-211 | for a non-negative base salary the prorated base lies between 0 and the base salary |
| Payroll.ProratedBaseInRange | src/utils/payroll.ts:209-211 | for wd ≥ 1 and 0 ≤ dp ≤ wd the prorated base is base × dp / wd: 0 for no days, the full base for all days |
| Payroll.ProratedBaseClamped | src/utils/payroll.ts:210 | more days present than work days is paid as full attendance |
| Payroll.ProratedBaseWorkDaysFloor | src/utils/payroll.ts:209 | a work-day count below one is treated as one |
| Payroll.TipsForManagement | src/utils/payroll.ts:178-179 | management receives exactly the seeded tips |
| Payroll.TipsForStaff | src/utils/payroll.ts:178-195 | other employees receive the seeded tips plus the pool share exactly when the lowercased position contains a listed role |
| Payroll.TipEligibleThreeRoles | src/utils/payroll.ts:180-190 | a position is eligible exactly when, lowercased, it contains "dive master", "driver" or "diving instructor" |
| Payroll.SeniorPositions | src/utils/payroll.ts:180-187 | each senior role in the list is "senior " followed by the role before it |
| Payroll.DigitGroupsShapes | src/utils/payroll.ts:228-230 | the digit-group patterns mean: n digits, or digit runs of the given lengths with a dash between runs |
| Payroll.SssAccepted | src/utils/payroll.ts:232 | an SSS number is accepted exactly when, trimmed, it is `dd-ddddddd-d` or ten digits |
| Payroll.PhilHealthAccepted | src/utils/payroll.ts:233 | a PhilHealth number is accepted exactly when, trimmed, it is `dd-ddddddddd-d` or twelve digits |
| Payroll.PagIbigAccepted | src/utils/payroll.ts:234 | a Pag-IBIG number is accepted exactly when, trimmed, it is `dddd-dddd-dddd` or twelve digits |
| Payroll.SssContribution | src/utils/payroll.ts:237-240 | the SSS share is at most 1350, non-negative for a non-negative gross, and exactly 1350 from a gross of 30000 |
| Payroll.PhilHealthContribution | src/utils/payroll.ts:242-245 | the PhilHealth share is 2.5% of the gross capped at 200000, hence at most 5000 |
| Payroll.PagIbigContribution | src/utils/payroll.ts:247-249 | the Pag-IBIG share is 2% of the gross up to 5000 and exactly 100 from there; never more than 100 |
| Payroll.StatutoryRule | src/utils/payroll.ts:224-249 | a missing or malformed member number means no deduction for that scheme; all three stay within their caps and are non-negative for a non-negative gross |
| Payroll.PaySlipTotals | src/utils/payroll.ts:252-265 | the allowance total is the sum of its six lines, the deduction total is the sum of its nine lines, gross = prorated base + allowances, net = gross − deductions |
| Payroll.PaySlipComponents | src/utils/payroll.ts:267-300 | each pay-slip field is the corresponding rule applied to the employee, period and attendance; the statutory shares are charged on the slip's own gross |
| Payroll.PaySlipWithoutAttendance | src/utils/payroll.ts:164-212 | without attendance the prorated base is the base salary and there is no overtime |
| Payroll.HolidayAllowanceIgnoresAttendance | src/utils/payroll.ts:128 | the holiday allowance does not depend on attendance |
| Payroll.PaySlipNonNegative | src/utils/payroll.ts:198-249 | with non-negative inputs (seeded holiday allowance included) the prorated base, overtime, allowance total and gross are non-negative and each statutory share is within its bounds |
| Payroll.NetSalaryMayBeNegative | src/utils/payroll.ts:265 | a 100 base with a 1000 tax deduction nets −900: the net is not clamped |
| Payroll.SssOnThirtyThousand | src/utils/payroll.ts:237-265 | a 30000 gross with a valid SSS number is charged 1350 and nets 28650 |
| Payroll.OvertimeFiveHours | src/utils/payroll.ts:168-171 | five hours on a 16000 base with the default 160 hours pay 625 |
| Payroll.ProrationHalf | src/utils/payroll.ts:208-211 | ten days present of twenty halve a 16000 base |
| Payroll.PaySlipIdOfPeriod | src/utils/payroll.ts:268 | the slip id is `PS-<id>-<m><y>`: the `/` of the period removed |
| Payroll.GetHolidayName | src/utils/payroll.ts:325-334 | the five known types map to their labels, any other type to "Tunjangan Hari Raya" |
| AttendanceClient.Find | src/attandance/attendanceClient.ts:40 | the index found is the first record of the (employee, date), or the list length when none is |
| AttendanceClient.PlaceRecord | src/attandance/attendanceClient.ts:41-55 | writing back a record of the day replaces the found record or appends one, changes nothing else and keeps one record per day |
| AttendanceClient.HoursWorked | src/attandance/attendanceClient.ts:64-65 | hours worked are the time from clock-in to clock-out in hours, to the nearest hundredth (within 0.005); 0 when the clock-out is not after the clock-in |
| AttendanceClient.OvertimeOf | src/attandance/attendanceClient.ts:66 | overtime is non-negative and 0 for at most eight hours |
| AttendanceClient.LateMinutes | src/attandance/attendanceClient.ts:67-69 | lateness is 0 or more than 15 minutes |
| AttendanceClient.LateMinutesRule | src/attandance/attendanceClient.ts:68-69 | lateness is 0 below 15.5 minutes after 09:00, and from there the rounded minute count, at least 16 |
| AttendanceClient.OvertimeOfHoursWorked | src/attandance/attendanceClient.ts:65-66 | the overtime is exactly the hours worked beyond eight |
| AttendanceClient.RecomputeRule | src/attandance/attendanceClient.ts:61-76 | with both times the hours are those from clock-in to clock-out, the overtime the hours beyond eight, lateness 0 or over 15, and the status present; with one time only the status changes (present after a clock-in, pending otherwise); with none it is absent |
| AttendanceClient.SetForDateFrame | src/attandance/attendanceClient.ts:39-55 | the day's record, or a new one appended, is the only record that changes, and one record per day remains |
| AttendanceClient.SetForDateFields | src/attandance/attendanceClient.ts:42-58 | a new record gets id `ATT-{employeeId}-{date}`, an existing one keeps its id; a given time replaces the stored one, an omitted time keeps it |
| AttendanceClient.SetForDateEmptyDay | src/attandance/attendanceClient.ts:42-53 | a new day set with no times is an absent record with zero counters |
| AttendanceClient.TimeInIdempotent | src/attandance/attendanceClient.ts:85-87 | a second clock-in on the same day changes nothing |
| AttendanceClient.TimeInFrame | src/attandance/attendanceClient.ts:82-109 | a clock-in sets the time-in to now and the status to present, creating the record when missing, unless a time-in exists; only that record changes |
| AttendanceClient.TimeOutIdempotent | src/attandance/attendanceClient.ts:133 | a second clock-out on the same day changes nothing |
| AttendanceClient.TimeOutFrame | src/attandance/attendanceClient.ts:111-153 | a clock-out creates a pending record when none exists; after a clock-in it recomputes the hours, overtime and lateness and sets present; without one only the status becomes pending; only that record changes |
| AttendanceClient.TimeOutIsSetTimeOut | src/attandance/attendanceClient.ts:133-150 | clocking out an open record equals setting its time-out to now |
| AttendanceClient.TimeInIsSetTimeIn | src/attandance/attendanceClient.ts:85-106 | clocking in on a day with no times, or a new day, equals setting the time-in to now |
| AttendanceClient.Filter | src/attandance/attendanceClient.ts:22-25 | the records kept are exactly those of the employee within the date bounds, each with its multiplicity |
| AttendanceClient.SortNewestFirstSpec | src/attandance/attendanceClient.ts:26 | the sort orders dates newest first and is a permutation |
| AttendanceClient.AttendanceStore.FetchAttendance | src/attandance/attendanceClient.ts:20-28 | the result holds exactly the selected records, with their multiplicities, newest first |
| AttendanceClient.AttendanceStore.FetchLeaves | src/attandance/attendanceClient.ts:170-179 | the employee's leave requests, each as often as it is stored and no other; all of them, unchanged, when no employee is given |
| AttendanceClient.AttendanceStore.FetchOvertime | src/attandance/attendanceClient.ts:196-205 | the employee's overtime requests, each as often as it is stored and no other; all of them, unchanged, when no employee is given |
| AttendanceClient.LeavesOfCount | src/attandance/attendanceClient.ts:175 | the filter keeps each leave request of the employee as often as it is stored, and drops every other |
| AttendanceClient.LeavesOfAppend | src/attandance/attendanceClient.ts:175 | the filter keeps order: the requests of a concatenation are those of each part, in turn |
| AttendanceClient.LeavesOfSubmitted | src/attandance/attendanceClient.ts:155-175 | a newly stored leave request is listed last among its employee's requests, and does not appear among another employee's |
| AttendanceClient.RequestsOfCount | src/attandance/attendanceClient.ts:201 | the filter keeps each overtime request of the employee as often as it is stored, and drops every other |
| AttendanceClient.RequestsOfAppend | src/attandance/attendanceClient.ts:201 | the filter keeps order: the requests of a concatenation are those of each part, in turn |
| AttendanceClient.RequestsOfSubmitted | src/attandance/attendanceClient.ts:181-201 | a newly stored overtime request is listed last among its employee's requests, and does not appear among another employee's |
| AttendanceClient.TimeInWritesIff | src/attandance/attendanceClient.ts:85-91 | clock-in writes the store exactly when it changes the stored list; a repeated clock-in leaves it as it is |
| AttendanceClient.TimeOutWritesIff | src/attandance/attendanceClient.ts:129-133 | clock-out writes the store exactly when it changes the stored list; a repeated clock-out leaves it as it is |
| AttendanceClient.AttendanceStore.SetAttendanceForDate | src/attandance/attendanceClient.ts:34-80 | the call always writes: when storage accepts the write, the new records and the returned record are those of the set-for-date rule; a refused write rejects and leaves the records; leaves and overtime requests are unchanged |
| AttendanceClient.AttendanceStore.LogTimeIn | src/attandance/attendanceClient.ts:82-109 | a repeated clock-in answers the stored record without writing; otherwise, when storage accepts the write, the records and the record are those of the clock-in rule, and a refused write rejects with the records unchanged; nothing else changes |
| AttendanceClient.AttendanceStore.LogTimeOut | src/attandance/attendanceClient.ts:111-153 | a repeated clock-out answers the stored record without writing; otherwise, when storage accepts the write, the records and the record are those of the clock-out rule, and a refused write rejects with the records unchanged; nothing else changes |
| AttendanceClient.AttendanceStore.SubmitLeave | src/attandance/attendanceClient.ts:155-168 | a pending request with id `L-{now}` is answered, and appended to the leaves only when storage accepts the write; a refused write is swallowed; nothing else changes |
| AttendanceClient.AttendanceStore.SubmitOvertime | src/attandance/attendanceClient.ts:181-194 | a pending request with id `OT-{now}` is answered, and appended to the overtime requests only when storage accepts the write; a refused write is swallowed; nothing else changes |
| AttendanceApi.MapDbAttendance | app/api/attendance/route.ts:4-21 | no row maps to nothing; the date is the UTC day of the stored instant; null hours and overtime read as 0, null lateness and undertime as 0, a null status as "absent"; set lateness and undertime pass through, and so do the id, employee, times, source, `created_at` and `updated_at` |
| AttendanceApi.UtcDayOfDate | app/api/attendance/route.ts:9 | the instant `new Date("yyyy-mm-dd")` (midnight UTC), or any later instant of that day, reads back as that day |
| AttendanceApi.ComputeDerivedRule | app/api/attendance/route.ts:62-78 | with both times the status is present, the hours non-negative, the overtime the hours beyond eight, lateness 0 or over 15; with one time present or pending; with none the fallback status; undertime is always 0 |
| AttendanceApi.OvertimeAgrees | app/api/attendance/route.ts:69-77 | rounding the overtime of unrounded hours equals the overtime of the rounded hours |
| AttendanceApi.ServerAgreesWithClient | app/api/attendance/route.ts:68-73 | from the same two times the server derives the same hours, overtime, lateness and status as the browser store |
| AttendanceApi.WriteReadsBack | app/api/attendance/route.ts:83-94 | a written row reads back as exactly the values written, with `updated_at` the write's clock reading and `created_at` kept |
| AttendanceApi.UpsertKeepsUnique | app/api/attendance/route.ts:82-112 | replacing a day's row by one of the same day, or adding a day no row has, keeps one row per day |
| AttendanceApi.AttendanceTable.Post | app/api/attendance/route.ts:45-117 | 400 exactly without an employee id or date, and then the rows are unchanged; a date that is an Invalid Date is 500 with the rows unchanged; otherwise the day is the instant of the date: 200 and an overwrite of the row stored at that instant when one exists, with `updated_at` now; for a day no row has, 201 and a new row under a free id with both timestamps now, or 500 when the id is taken; one row per day is kept |
| AttendanceApi.AttendanceTable.Put | app/api/attendance/route.ts:120-170 | 400 without an id, 404 for an unknown one; otherwise missing times fall back to the stored ones, the stored status is the default, a given status or source overrides, and `updated_at` is now |
| AttendanceApi.PostWriteIdempotent | app/api/attendance/route.ts:82-94 | repeating the same POST on an existing day rewrites the same values |
| AttendanceApi.PutWithoutFields | app/api/attendance/route.ts:129-161 | a PUT with no fields keeps the stored times and source, and with no times keeps the stored status |
| EmployeesApi.IsValidEmailIff | app/api/employees/route.ts:4-6 | an address is valid exactly when it is X@Y.Z with X, Y, Z non-empty and free of `@` and whitespace, Y possibly holding dots |
| EmployeesApi.ValidEmailHasForm | app/api/employees/route.ts:5 | every valid address has the X@Y.Z form |
| EmployeesApi.FormIsValidEmail | app/api/employees/route.ts:5 | every address of the X@Y.Z form is valid |
| EmployeesApi.ValidationErrorsRule | app/api/employees/route.ts:11-16 | each message is in the list exactly when its rule fails |
| EmployeesApi.ValidationErrorsEmpty | app/api/employees/route.ts:8-18 | the list is empty exactly when name and position are non-blank, a given e-mail is valid, given numbers are numeric and a given join date parses |
| EmployeesApi.ValidateEmployeeInput | app/api/employees/route.ts:8-18 | a null body fails; any other scalar body reports "body is required" when falsy and then always the missing name and position; an object body gets the errors of the pushes, in order |
| EmployeesApi.ParsedOr | app/api/employees/route.ts:69-70 | `parseInt(s, 10) \|\| d` is the parsed integer when s parses to a non-zero one, and the default otherwise |
| EmployeesApi.Pagination | app/api/employees/route.ts:69-83 | pagination is on exactly when a page is given; the page is at least 1, the size is between 1 and 500, and skip is (page − 1) × size ≥ 0 |
| EmployeesApi.PaginationOfNumerals | app/api/employees/route.ts:59-70 | page and size numerals within bounds are taken as written; `pageSize` wins over `limit`, and the size is 50 without either |
| EmployeesApi.PaginationClamps | app/api/employees/route.ts:69-70 | a size over 500 is 500, and a page that does not parse as a non-zero integer is page 1 |
| EmployeesApi.MapDbEmployeeDefaults | app/api/employees/route.ts:20-52 | no row maps to nothing; department defaults to "", base salary and overtime rate to 0, status to "active", the management flag to false, and each is passed through when set; every other optional column is passed through when set and is undefined when null or missing; a date column only when truthy |
| EmployeesApi.RemoveUndefined | app/api/employees/route.ts:138 | the fields kept are exactly those whose value is not undefined, in order |
| EmployeesApi.CreateValueDefined | app/api/employees/route.ts:110-134 | a create value is undefined only for a missing `name` |
| EmployeesApi.PostDataComplete | app/api/employees/route.ts:105-138 | after validation passes, removing undefined keys keeps every create field |
| EmployeesApi.PutDataKeeps | app/api/employees/route.ts:191-220 | an update writes a column exactly when the body gives it a non-null value (a truthy one for a date), `name` whenever the key is present, and always `updated_at` |
| EmployeesApi.Apply | app/api/employees/route.ts:222 | the updated row has the written fields and keeps every other column |
| EmployeesApi.ApplyLastWrite | app/api/employees/route.ts:222 | every written field that no later field of the same column overrides is the value its column holds |
| EmployeesApi.EmployeeTable.GetById | app/api/employees/route.ts:62-66 | a stored id answers 200 with the mapped row, another id 404 |
| EmployeesApi.EmployeeTable.Post | app/api/employees/route.ts:100-180 | a null body is 500; any other scalar body is 400 with "body is required" (when falsy), name and position; an object failing validation 400 with the messages joined by "; "; fields the database refuses, or a taken id, 500; otherwise 201 and the row created under the new id; only the 201 changes the table |
| EmployeesApi.EmployeeTable.Put | app/api/employees/route.ts:182-229 | 400 without a truthy id, always for a scalar body; an id that is not a stored string key, or fields the database refuses, 500 with the table unchanged; otherwise the defined fields are written over the stored row and the mapped row is answered |
| EmployeesApi.EmployeeTable.Delete | app/api/employees/route.ts:231-246 | 400 without an id; an unknown id is 500; otherwise the row is removed and its id answered |
| Holidays.Collapse | src/utils/holidays.ts:7 | the collapsed string is over [a-z0-9_], never has two adjacent "_", is empty only for an empty input, and starts with "_" exactly when the input starts outside [a-z0-9] |
| Holidays.CollapseIsSqueezed | src/utils/holidays.ts:7 | collapsing each run outside [a-z0-9] to one "_" equals replacing each such character by "_" and then squeezing repeated "_" |
| Holidays.MapFromNagerRule | src/utils/holidays.ts:6-21 | the id is the slug of the local name, else of the name, else the date; the name and the local name prefer the local name, else the name ("Holiday" and "" without either); the English name and description prefer the name, else the local name, else ""; the type, multiplier, activity and religions are fixed |
| Holidays.SlugShape | src/utils/holidays.ts:7-9 | the id of a named entry is a non-empty slug over [a-z0-9_] without adjacent "_" |
| Holidays.LookupPrecedence | src/utils/holidays.ts:54-71 | on the server nothing is cached; in the browser the global list answers every year; without it, the stored list of the year is answered, and a missing or malformed entry gives [] |
| Holidays.HydrateThenLookup | src/utils/holidays.ts:38-47 | after a successful hydration in the browser every lookup answers the fresh list, even when storage failed |
| Holidays.EnsureCacheFirst | src/utils/holidays.ts:73-82 | a non-empty cache is answered without a fetch or a change; after a successful hydration a second call answers the same list |
| Holidays.HolidayCache.GetCachedHolidaysForYear | src/utils/holidays.ts:54-71 | the lookup answers by the precedence rule over the cache state |
| Holidays.HolidayCache.HydratePhilippineHolidays | src/utils/holidays.ts:23-52 | the result and the new cache state are those of the hydration rule |
| Holidays.HolidayCache.EnsureHolidaysHydrated | src/utils/holidays.ts:73-82 | the result and the new cache state are those of the cache-first rule |
| Reports.CountWorkDays | src/components/modals/ReportsModal.tsx:103-125 | the loop's count is the weekdays of the range less the holidays whose UTC midnight falls between the local midnights of the first and last day on a local weekday, floored at 0 |
| Reports.SubtractedEastOfUtc | src/components/modals/ReportsModal.tsx:97-118 | at or east of UTC a holiday is subtracted when it is a weekday from the first day on and before the last day; one on the last day is subtracted only at UTC itself |
| Reports.WorkDaysBounds | src/components/modals/ReportsModal.tsx:113-121 | the count lies between 0 and the range's weekdays, a further holiday never raises it, and with no holiday subtracted it is the weekdays |
| Reports.DuplicateHolidayCountsTwice | src/components/modals/ReportsModal.tsx:113-119 | a holiday listed twice is subtracted twice |
| Reports.WeekdaysOfWeeks | src/components/modals/ReportsModal.tsx:106-110 | w whole weeks hold 5w weekdays |
| Reports.MonthWorkDays | src/components/modals/ReportsModal.tsx:97-110 | a month spans its days and holds 20 to 23 weekdays, so at most 23 work days |
| Reports.AggregateAttendance | src/components/modals/ReportsModal.tsx:146-155 | the aggregate has the given work days, 8 hours per work day, as days present exactly the number of records with status "present" or positive hours, and no hours worked |
| Reports.AttendanceOf | src/components/modals/ReportsModal.tsx:134-158 | an employee gets attendance exactly when the report is monthly and the fetch answered, and it is the aggregate of the fetched records |
| Reports.AttendanceOfRule | src/components/modals/ReportsModal.tsx:137-155 | in a monthly report the attendance has the month's work days (the same for every employee), eight expected hours per work day, the attended records as days present and the rounded overtime total |
| Reports.DaysPresentIsCount | src/components/modals/ReportsModal.tsx:147 | the running count of present days is the number of records with status "present" or positive hours |
| Reports.AggregateOvertime | src/components/modals/ReportsModal.tsx:146-153 | with non-negative overtime per record the total is non-negative and within half a hundredth of the sum |
| Reports.AggregateIgnoresOrder | src/components/modals/ReportsModal.tsx:146-147 | days present and total overtime do not depend on the order of the records |
| Reports.SortDescSpec | src/components/modals/ReportsModal.tsx:197 | the key sort is a permutation ordered from highest key to lowest |
| Reports.RowShowsPaySlip | src/components/modals/ReportsModal.tsx:162-179 | a row carries the pay slip's id, net and gross; department and position are never blank, and a given department is shown as it is |
| Reports.BuildRows | src/components/modals/ReportsModal.tsx:129-183 | one row per employee, each the pay slip of that employee with the attendance of their fetched records over the month's work days (none outside a monthly report or after a failed fetch), and a payroll total equal to the sum of the rows' nets |
| Reports.SumNetsIgnoresOrder | src/components/modals/ReportsModal.tsx:181 | the total does not depend on the order in which rows were pushed |
| Reports.DepartmentBreakdownRule | src/components/modals/ReportsModal.tsx:186-197 | one entry per department statistic, highest total first; each total is the net of that department's rows, and the average is total/count for a positive count, else 0 |
| Reports.DepartmentTotalSplit | src/components/modals/ReportsModal.tsx:188-189 | a department's total plus the rest's is the payroll total |
| Reports.BracketsPartition | src/components/modals/ReportsModal.tsx:200-212 | a non-negative net is in exactly one bracket, a negative net in none |
| Reports.SalaryDistribution | src/components/modals/ReportsModal.tsx:208-218 | one bucket per bracket with its count and the share of all employees, 0 without employees; the bucket counts add up to the rows with a non-negative net |
| Reports.BracketCountsSum | src/components/modals/ReportsModal.tsx:208-212 | the bucket counts add up to the rows with a non-negative net |
| Reports.TopEarnersRule | src/components/modals/ReportsModal.tsx:220-223 | at most ten earners, highest net first, drawn from the rows, and no row left out earns more than one listed |
| Reports.TrendsShape | src/components/modals/ReportsModal.tsx:225-230 | the trend shows the last six months, or all when fewer, in order |
| Reports.TrendsFlat | src/components/modals/ReportsModal.tsx:228 | the first month, and any month after a non-positive one, show no growth |
| Reports.TrendsGrowth | src/components/modals/ReportsModal.tsx:228 | after a positive month the growth is the percentage change, with its sign |
| Reports.BuildReportData | src/components/modals/ReportsModal.tsx:127-240 | the report's rows are those of the employees with their month's attendance; its total, breakdown, distribution, top earners and trends are those of the rules above |
| JsNumber.StringToNumberOfNatToString | app/api/employees/route.ts:14 | `Number` reads back every numeral `String` writes for a natural number |
| JsNumber.ParseInt10OfNatToString | app/api/employees/route.ts:69 | `parseInt(s, 10)` reads back every numeral of a natural number |
| Text.TrimEmptyIffBlank | app/api/employees/route.ts:11-12 | a string trims to empty exactly when it is all whitespace |
| Text.JoinSplit | src/utils/payroll.ts:94 | joining the pieces of a split with the separator gives the original string |

## Left out

- Persistence, network and I/O are not modelled: local storage, the JSON encoding of stored lists, `fetch` to the holiday service, Prisma's SQL, `NextResponse` and `console`. Stores are classes over sequences or maps. The outcome of a fetch, and whether local storage accepts a write, are parameters.
- Reading local storage is not modelled: the attendance store's fallback to an empty list when the stored text is missing or is not valid JSON, and the same fallback in `fetchLeaves` and `fetchOvertime`, are left out; the stored lists are always well formed.
- Time zones: instants are epoch milliseconds, and the instant of 09:00 on a record's date and today's date are inputs. In the work-day count a holiday's date is read as midnight UTC and the range as local midnights, with the offset of local time from UTC a parameter; the offset is one constant, so a daylight-saving change inside the range is not modelled.
- `calculateTipsDistribution` draws the pool share with `Math.random`; the share is a parameter of the payroll computation.
- `formatCurrency`, `formatDate` and `getCurrentPeriod` are locale and clock formatting; `generatedAt` is an opaque string.
- The ISO text of dates and times is not modelled: `toISOString`, `new Date(text)` and the `.slice(0, 10)` of a timestamp are replaced by integer instants, given dates and, for the attendance API's `date`, the day number of the UTC day.
- The GET listing of the attendance API and the search and ordering of the employees listing are database queries; only the pagination arithmetic is modelled.
- The report's conversion of its period into start and end dates, and the current-month default, are left out; the day range is given. The holidays it subtracts are given too: they are the cached holidays of the start's year, which `GetCachedHolidaysForYear` models.
- `Promise.all` completes in any order, so the order of report rows is not fixed; the model builds them in input order and proves the total and the aggregates order-independent.
- The work-day counters of the pay-slip and payroll-processing screens are not part of this model; they repeat the report's counter without the holiday subtraction.
- `toLowerCase` is modelled on ASCII letters only; other Unicode case mappings are left out.
- JSON values have no array or object arm: a request body is a scalar or an object of scalars. A nested value such as `name: []` cannot be written, so its truthiness and text (an empty array is truthy and prints blank) are not modelled; an array body is read as an object without the keys the endpoint asks for.
- NaN is not modelled for stored money fields: `x || 0` on an optional amount treats a missing value and 0 alike.
- Holiday dates in the built-in calendar are compared to the period through Civil dates; no lemma evaluates the concrete calendar's dates, because evaluating its literal dates in proofs is too costly (only its multipliers are checked).
- AttendanceTable.Post: which text `new Date(date)` turns into which instant is the parameter `dateValue` (None for an Invalid Date), so two spellings of one instant find the same row, but date parsing itself is not modelled. The database schema is not part of this model; the date column is taken to store the instant written, so a column that keeps only the calendar day is not modelled. The two `new Date()` calls of a create are one clock reading `now`.
- EmployeeTable.Post: Prisma's own checks of a create (a column of the wrong type, a `dateOfBirth` or `joinDate` that `new Date` turns into an invalid date, which validation does not catch for `dateOfBirth`) are the parameter `accepts`; which values Prisma refuses is not modelled. The 201 payload's `createdAt` and `updatedAt` come from database defaults, which the model leaves undefined.
- EmployeeTable.Put: no validation runs before the update, so `name: null`, `baseSalary: "abc"` or a date that does not parse reach Prisma; its refusal is the parameter `accepts` (answered 500), and which values it refuses is not modelled.
- GetHolidayName: a type that names a property every JavaScript object inherits ("toString", "constructor", "valueOf", "hasOwnProperty", "__proto__" and the like) makes the source return that inherited value, which is not a string; the model gives such a type the default label "Tunjangan Hari Raya".
- The React screens, authentication and the rest of the application are outside the core.
