/**
 * The browser-side attendance store: one list of attendance records with
 * find-or-create per (employee, date), manual time setting, clock-in and
 * clock-out, and the derived hours, overtime, lateness and status; and the
 * leave and overtime request lists with their filters.
 *
 * Times are instants in epoch milliseconds. `today` (the UTC calendar date of
 * "now") and `nineAm` (the instant of 09:00 local time on the record's date)
 * depend on the clock and the time zone, so callers pass them in, and so is
 * whether local storage accepts a write.
 */
module AttendanceClient {
  import opened Wrappers
  import opened Text
  import JsNumber

  datatype Status = Present | Absent | OnLeave | Holiday | Pending

  datatype AttendanceRecord = AttendanceRecord(
    id: string,
    employeeId: string,
    date: string,
    timeIn: Option<int>,
    timeOut: Option<int>,
    hoursWorked: real,
    overtimeHours: real,
    lateMinutes: int,
    undertimeMinutes: int,
    status: Status)

  datatype RequestStatus = RequestPending | Approved | Rejected

  datatype LeaveRequest = LeaveRequest(
    id: string, employeeId: string, leaveType: string, startDate: string, endDate: string,
    reason: Option<string>, status: RequestStatus)

  datatype OvertimeRequest = OvertimeRequest(
    id: string, employeeId: string, date: string, hours: real, reason: Option<string>, status: RequestStatus)

  /** An option of `setAttendanceForDate`: `undefined` keeps the time; any other value, `null` included, replaces it. */
  datatype TimeUpdate = Keep | Replace(value: Option<int>)

  const MsPerHour: int := 3600000
  const MsPerMinute: int := 60000

  // ---------------------------------------------------------------------------
  // Finding and placing the record of a day

  predicate IsFor(r: AttendanceRecord, employeeId: string, date: string) {
    r.employeeId == employeeId && r.date == date
  }

  /** At most one record per (employee, date). */
  predicate UniquePerDay(records: seq<AttendanceRecord>) {
    forall i, j :: 0 <= i < j < |records| ==>
      !IsFor(records[j], records[i].employeeId, records[i].date)
  }

  /** `records.find(...)`: the index of the first record of the day, or `|records|` when there is none. */
  function Find(records: seq<AttendanceRecord>, employeeId: string, date: string): (i: nat)
    ensures i <= |records|
    ensures forall j :: 0 <= j < i ==> !IsFor(records[j], employeeId, date)
    ensures i < |records| ==> IsFor(records[i], employeeId, date)
  {
    if records == [] then 0
    else if IsFor(records[0], employeeId, date) then 0
    else 1 + Find(records[1..], employeeId, date)
  }

  /** The record written back at index `i`, or appended when `i` is past the end. */
  function Place(records: seq<AttendanceRecord>, i: nat, r: AttendanceRecord): seq<AttendanceRecord>
    requires i <= |records|
  {
    if i == |records| then records + [r] else records[i := r]
  }

  /** `ATT-{employeeId}-{date}`. */
  function RecordId(employeeId: string, date: string): string {
    "ATT-" + employeeId + "-" + date
  }

  /** A new record of the day with zero counters. */
  function NewRecord(employeeId: string, date: string, timeIn: Option<int>, timeOut: Option<int>,
                     status: Status): AttendanceRecord {
    AttendanceRecord(RecordId(employeeId, date), employeeId, date, timeIn, timeOut, 0.0, 0.0, 0, 0, status)
  }

  /** Writing back a record of the same day changes only that record and keeps one record per day. */
  lemma {:induction false} PlaceRecord(records: seq<AttendanceRecord>, employeeId: string, date: string, r: AttendanceRecord)
    requires IsFor(r, employeeId, date)
    ensures var i := Find(records, employeeId, date);
      var after := Place(records, i, r);
      && |after| == |records| + (if i == |records| then 1 else 0)
      && (forall j :: 0 <= j < |records| && j != i ==> after[j] == records[j])
      && after[i] == r
      && Find(after, employeeId, date) == i
      && (UniquePerDay(records) ==> UniquePerDay(after))
  {
    var i := Find(records, employeeId, date);
    var after := Place(records, i, r);
    if UniquePerDay(records) {
      forall a, b | 0 <= a < b < |after| ensures !IsFor(after[b], after[a].employeeId, after[a].date) {
        if b == i {
          assert !IsFor(records[a], employeeId, date);
        } else if a == i {
          if i < |records| { assert !IsFor(records[b], records[i].employeeId, records[i].date); }
        } else {
          assert after[a] == records[a] && after[b] == records[b];
        }
      }
    }
    FindStops(after, employeeId, date, i);
  }

  lemma FindStops(records: seq<AttendanceRecord>, employeeId: string, date: string, i: nat)
    requires i < |records| && IsFor(records[i], employeeId, date)
    requires forall j :: 0 <= j < i ==> !IsFor(records[j], employeeId, date)
    ensures Find(records, employeeId, date) == i
  {
  }

  // ---------------------------------------------------------------------------
  // Derived fields

  /** Hours between the two instants, none when clocked out before clocking in, rounded to hundredths. */
  function HoursWorked(tIn: int, tOut: int): (h: real)
    ensures h >= 0.0
    ensures tOut <= tIn ==> h == 0.0
    ensures tOut > tIn ==> var x := (tOut - tIn) as real / MsPerHour as real; x - 0.005 < h <= x + 0.005
  {
    var hours := if tOut - tIn > 0 then (tOut - tIn) as real / MsPerHour as real else 0.0;
    JsNumber.Round2Monotone(0.0, hours);
    JsNumber.RoundOfInt(0);
    JsNumber.Round2(hours)
  }

  /** Hours beyond an eight-hour day, rounded to hundredths. */
  function OvertimeOf(hoursWorked: real): (o: real)
    ensures o >= 0.0
    ensures hoursWorked <= 8.0 ==> o == 0.0
  {
    if hoursWorked > 8.0 then
      JsNumber.Round2Monotone(0.0, hoursWorked - 8.0);
      JsNumber.RoundOfInt(0);
      JsNumber.Round2(hoursWorked - 8.0)
    else 0.0
  }

  /** Minutes after 09:00, rounded; anything up to fifteen minutes counts as on time. */
  function LateMinutes(tIn: int, nineAm: int): (m: int)
    ensures m == 0 || m > 15
  {
    var late := JsNumber.Round((tIn - nineAm) as real / MsPerMinute as real);
    var late' := if late > 0 then late else 0;
    if late' > 15 then late' else 0
  }

  /**
   * Lateness counts exactly from 15.5 minutes after 09:00 (the first instant
   * that rounds to 16 minutes), and is then the rounded minute count.
   */
  lemma LateMinutesRule(tIn: int, nineAm: int)
    ensures tIn - nineAm < 930000 ==> LateMinutes(tIn, nineAm) == 0
    ensures tIn - nineAm >= 930000 ==>
      LateMinutes(tIn, nineAm) == JsNumber.Round((tIn - nineAm) as real / 60000.0) >= 16
  {
    var x := (tIn - nineAm) as real / 60000.0;
    if tIn - nineAm < 930000 {
      assert x < 15.5;
    } else {
      assert x >= 15.5;
    }
  }

  /**
   * Overtime is exact: the hours worked are already whole hundredths, so
   * rounding the excess again changes nothing.
   */
  lemma OvertimeOfHoursWorked(tIn: int, tOut: int)
    ensures var hw := HoursWorked(tIn, tOut);
      OvertimeOf(hw) == if hw > 8.0 then hw - 8.0 else 0.0
  {
    var hours := if tOut - tIn > 0 then (tOut - tIn) as real / MsPerHour as real else 0.0;
    var hw := HoursWorked(tIn, tOut);
    if hw > 8.0 {
      JsNumber.Round2ShiftWhole(JsNumber.Round2(hours), 8);
      JsNumber.Round2Idempotent(hours);
    }
  }

  /** The recomputation after the times are set: hours, overtime and lateness from both times, else the status only. */
  function Recompute(r: AttendanceRecord, nineAm: int): AttendanceRecord {
    if r.timeIn.Some? && r.timeOut.Some? then
      var hw := HoursWorked(r.timeIn.value, r.timeOut.value);
      r.(hoursWorked := hw, overtimeHours := OvertimeOf(hw),
         lateMinutes := LateMinutes(r.timeIn.value, nineAm), status := Present)
    else if r.timeIn.Some? || r.timeOut.Some? then
      r.(status := if r.timeIn.Some? then Present else Pending)
    else r.(status := Absent)
  }

  /**
   * The derived-field rule: with both times the hours, overtime and lateness
   * are recomputed and the status is present; with one time only the status
   * changes (present with a time-in, pending with a time-out only); with none
   * the status is absent. Identity, times and undertime never change.
   */
  lemma RecomputeRule(r: AttendanceRecord, nineAm: int)
    ensures var n := Recompute(r, nineAm);
      && n.id == r.id && n.employeeId == r.employeeId && n.date == r.date
      && n.timeIn == r.timeIn && n.timeOut == r.timeOut && n.undertimeMinutes == r.undertimeMinutes
      && (r.timeIn.Some? && r.timeOut.Some? ==>
            && n.status == Present && n.hoursWorked == HoursWorked(r.timeIn.value, r.timeOut.value)
            && n.overtimeHours == (if n.hoursWorked > 8.0 then n.hoursWorked - 8.0 else 0.0)
            && (n.lateMinutes == 0 || n.lateMinutes > 15))
      && (!(r.timeIn.Some? && r.timeOut.Some?) ==>
            n.hoursWorked == r.hoursWorked && n.overtimeHours == r.overtimeHours && n.lateMinutes == r.lateMinutes)
      && (r.timeIn.Some? && r.timeOut.None? ==> n.status == Present)
      && (r.timeIn.None? && r.timeOut.Some? ==> n.status == Pending)
      && (r.timeIn.None? && r.timeOut.None? ==> n.status == Absent)
  {
    if r.timeIn.Some? && r.timeOut.Some? {
      OvertimeOfHoursWorked(r.timeIn.value, r.timeOut.value);
    }
  }

  // ---------------------------------------------------------------------------
  // The three store operations as functions of the stored list

  datatype Outcome = Outcome(records: seq<AttendanceRecord>, rec: AttendanceRecord)

  function ApplyTime(current: Option<int>, u: TimeUpdate): Option<int> {
    if u.Replace? then u.value else current
  }

  /** `setAttendanceForDate`: find or create the day's record, apply the options, recompute. */
  function SetForDate(records: seq<AttendanceRecord>, employeeId: string, date: string,
                      timeIn: TimeUpdate, timeOut: TimeUpdate, nineAm: int): Outcome
  {
    var i := Find(records, employeeId, date);
    var base := if i < |records| then records[i] else NewRecord(employeeId, date, None, None, Absent);
    var r := Recompute(base.(timeIn := ApplyTime(base.timeIn, timeIn), timeOut := ApplyTime(base.timeOut, timeOut)), nineAm);
    Outcome(Place(records, i, r), r)
  }

  /** `logTimeIn`: a first clock-in of the day sets the time and the status; a repeated one changes nothing. */
  function TimeIn(records: seq<AttendanceRecord>, employeeId: string, now: int, today: string): Outcome {
    var i := Find(records, employeeId, today);
    if i < |records| then
      var existing := records[i];
      if existing.timeIn.Some? then Outcome(records, existing)
      else
        var r := existing.(timeIn := Some(now), status := Present);
        Outcome(records[i := r], r)
    else
      var r := NewRecord(employeeId, today, Some(now), None, Present);
      Outcome(records + [r], r)
  }

  /** `logTimeOut`: a first clock-out of the day sets the time and, after a clock-in, the derived fields. */
  function TimeOut(records: seq<AttendanceRecord>, employeeId: string, now: int, today: string, nineAm: int): Outcome {
    var i := Find(records, employeeId, today);
    if i == |records| then
      var r := NewRecord(employeeId, today, None, Some(now), Pending);
      Outcome(records + [r], r)
    else
      var existing := records[i];
      if existing.timeOut.Some? then Outcome(records, existing)
      else
        var closed := existing.(timeOut := Some(now));
        var r :=
          if closed.timeIn.Some? then
            var hw := HoursWorked(closed.timeIn.value, now);
            closed.(hoursWorked := hw, overtimeHours := OvertimeOf(hw),
                    lateMinutes := LateMinutes(closed.timeIn.value, nineAm), status := Present)
          else closed.(status := Pending);
        Outcome(records[i := r], r)
  }

  /** Whether `logTimeIn` writes the store: unless the day's record already has a clock-in. */
  predicate TimeInWrites(records: seq<AttendanceRecord>, employeeId: string, today: string) {
    var i := Find(records, employeeId, today);
    i == |records| || records[i].timeIn.None?
  }

  /** Whether `logTimeOut` writes the store: unless the day's record already has a clock-out. */
  predicate TimeOutWrites(records: seq<AttendanceRecord>, employeeId: string, today: string) {
    var i := Find(records, employeeId, today);
    i == |records| || records[i].timeOut.None?
  }

  /** `logTimeIn` writes exactly when it changes the stored list, so a skipped write loses nothing. */
  lemma TimeInWritesIff(records: seq<AttendanceRecord>, employeeId: string, now: int, today: string)
    ensures TimeInWrites(records, employeeId, today) <==> TimeIn(records, employeeId, now, today).records != records
  {
    var i := Find(records, employeeId, today);
    var o := TimeIn(records, employeeId, now, today);
    if i == |records| {
      assert |o.records| != |records|;
    } else if records[i].timeIn.None? {
      assert o.records[i].timeIn != records[i].timeIn;
    }
  }

  /** `logTimeOut` writes exactly when it changes the stored list, so a skipped write loses nothing. */
  lemma TimeOutWritesIff(records: seq<AttendanceRecord>, employeeId: string, now: int, today: string, nineAm: int)
    ensures TimeOutWrites(records, employeeId, today) <==> TimeOut(records, employeeId, now, today, nineAm).records != records
  {
    var i := Find(records, employeeId, today);
    var o := TimeOut(records, employeeId, now, today, nineAm);
    if i == |records| {
      assert |o.records| != |records|;
    } else if records[i].timeOut.None? {
      assert o.records[i].timeOut != records[i].timeOut;
    }
  }

  /**
   * `setAttendanceForDate` touches one record: the day's record if there is
   * one, else a new record appended at the end; every other record is
   * unchanged and at most one record per day remains.
   */
  lemma SetForDateFrame(records: seq<AttendanceRecord>, employeeId: string, date: string,
                        timeIn: TimeUpdate, timeOut: TimeUpdate, nineAm: int)
    ensures var o := SetForDate(records, employeeId, date, timeIn, timeOut, nineAm);
      var i := Find(records, employeeId, date);
      && |o.records| == |records| + (if i == |records| then 1 else 0)
      && (forall j :: 0 <= j < |records| && j != i ==> o.records[j] == records[j])
      && o.records[i] == o.rec && IsFor(o.rec, employeeId, date)
      && (UniquePerDay(records) ==> UniquePerDay(o.records))
  {
    var o := SetForDate(records, employeeId, date, timeIn, timeOut, nineAm);
    SetForDateFields(records, employeeId, date, timeIn, timeOut, nineAm);
    PlaceRecord(records, employeeId, date, o.rec);
  }

  /**
   * The record written keeps the existing id, or gets `ATT-{employeeId}-{date}`
   * when new; each time is replaced when given and kept otherwise.
   */
  lemma SetForDateFields(records: seq<AttendanceRecord>, employeeId: string, date: string,
                         timeIn: TimeUpdate, timeOut: TimeUpdate, nineAm: int)
    ensures var o := SetForDate(records, employeeId, date, timeIn, timeOut, nineAm);
      var i := Find(records, employeeId, date);
      && IsFor(o.rec, employeeId, date)
      && (i == |records| ==> o.rec.id == RecordId(employeeId, date) && o.rec.undertimeMinutes == 0)
      && (i < |records| ==> o.rec.id == records[i].id)
      && o.rec.timeIn == (if timeIn.Replace? then timeIn.value else if i < |records| then records[i].timeIn else None)
      && o.rec.timeOut == (if timeOut.Replace? then timeOut.value else if i < |records| then records[i].timeOut else None)
  {
  }

  /** Setting a day with no record and no times creates an absent record with zero counters. */
  lemma SetForDateEmptyDay(records: seq<AttendanceRecord>, employeeId: string, date: string, nineAm: int)
    requires Find(records, employeeId, date) == |records|
    ensures SetForDate(records, employeeId, date, Keep, Keep, nineAm).rec
         == NewRecord(employeeId, date, None, None, Absent)
  {
  }

  /** A second clock-in on the same day changes nothing, whatever its time. */
  lemma TimeInIdempotent(records: seq<AttendanceRecord>, employeeId: string, now: int, later: int, today: string)
    ensures var o := TimeIn(records, employeeId, now, today);
      TimeIn(o.records, employeeId, later, today) == Outcome(o.records, o.rec)
  {
    var o := TimeIn(records, employeeId, now, today);
    PlaceRecord(records, employeeId, today, o.rec);
  }

  /**
   * A clock-in sets the time-in of the day's record to `now` and the status
   * to present, unless the record already had a time-in, in which case the
   * list is unchanged; only that record changes and one record per day remains.
   */
  lemma TimeInFrame(records: seq<AttendanceRecord>, employeeId: string, now: int, today: string)
    ensures var o := TimeIn(records, employeeId, now, today);
      var i := Find(records, employeeId, today);
      && (i < |records| && records[i].timeIn.Some? ==> o.records == records && o.rec == records[i])
      && (!(i < |records| && records[i].timeIn.Some?) ==>
            o.rec.timeIn == Some(now) && o.rec.status == Present && o.records[i] == o.rec)
      && (i == |records| ==> o.rec == NewRecord(employeeId, today, Some(now), None, Present))
      && (i < |records| ==> |o.records| == |records| && o.rec.timeOut == records[i].timeOut
                            && o.rec.hoursWorked == records[i].hoursWorked)
      && (forall j :: 0 <= j < |records| && j != i ==> o.records[j] == records[j])
      && (UniquePerDay(records) ==> UniquePerDay(o.records))
  {
    var o := TimeIn(records, employeeId, now, today);
    PlaceRecord(records, employeeId, today, o.rec);
  }

  /** A second clock-out on the same day changes nothing, whatever its time. */
  lemma TimeOutIdempotent(records: seq<AttendanceRecord>, employeeId: string, now: int, later: int,
                          today: string, nineAm: int)
    ensures var o := TimeOut(records, employeeId, now, today, nineAm);
      TimeOut(o.records, employeeId, later, today, nineAm) == Outcome(o.records, o.rec)
  {
    var o := TimeOut(records, employeeId, now, today, nineAm);
    PlaceRecord(records, employeeId, today, o.rec);
  }

  /**
   * A clock-out: with no record of the day a pending record is created; with
   * a record already clocked out the list is unchanged; otherwise the time-out
   * is set and, after a clock-in, the hours, overtime and lateness are
   * recomputed and the status is present, and without one only the status
   * becomes pending.
   */
  lemma TimeOutFrame(records: seq<AttendanceRecord>, employeeId: string, now: int, today: string, nineAm: int)
    ensures var o := TimeOut(records, employeeId, now, today, nineAm);
      var i := Find(records, employeeId, today);
      && (i == |records| ==> o.rec == NewRecord(employeeId, today, None, Some(now), Pending))
      && (i < |records| && records[i].timeOut.Some? ==> o.records == records && o.rec == records[i])
      && (i < |records| && records[i].timeOut.None? && records[i].timeIn.None? ==>
            o.rec == records[i].(timeOut := Some(now), status := Pending))
      && (i < |records| && records[i].timeOut.None? && records[i].timeIn.Some? ==>
            && o.rec.timeOut == Some(now) && o.rec.status == Present
            && o.rec.hoursWorked == HoursWorked(records[i].timeIn.value, now)
            && o.rec.overtimeHours == (if o.rec.hoursWorked > 8.0 then o.rec.hoursWorked - 8.0 else 0.0)
            && (o.rec.lateMinutes == 0 || o.rec.lateMinutes > 15))
      && (forall j :: 0 <= j < |records| && j != i ==> o.records[j] == records[j])
      && (UniquePerDay(records) ==> UniquePerDay(o.records))
  {
    var o := TimeOut(records, employeeId, now, today, nineAm);
    var i := Find(records, employeeId, today);
    if i < |records| && records[i].timeOut.None? && records[i].timeIn.Some? {
      OvertimeOfHoursWorked(records[i].timeIn.value, now);
    }
    PlaceRecord(records, employeeId, today, o.rec);
  }

  /** A clock-out of an open record is the same as setting its time-out to `now`. */
  lemma TimeOutIsSetTimeOut(records: seq<AttendanceRecord>, employeeId: string, now: int, today: string, nineAm: int)
    requires Find(records, employeeId, today) < |records|
    requires records[Find(records, employeeId, today)].timeOut.None?
    ensures TimeOut(records, employeeId, now, today, nineAm)
         == SetForDate(records, employeeId, today, Keep, Replace(Some(now)), nineAm)
  {
  }

  /**
   * A clock-in is the same as setting the time-in to `now`, except on a day
   * that already has a time-out and no time-in, where the clock-in does not
   * recompute the hours.
   */
  lemma TimeInIsSetTimeIn(records: seq<AttendanceRecord>, employeeId: string, now: int, today: string, nineAm: int)
    requires var i := Find(records, employeeId, today);
      i == |records| || (records[i].timeIn.None? && records[i].timeOut.None?)
    ensures TimeIn(records, employeeId, now, today)
         == SetForDate(records, employeeId, today, Replace(Some(now)), Keep, nineAm)
  {
  }

  // ---------------------------------------------------------------------------
  // Reading the store

  /** A filter argument is applied only when it is a non-empty string. */
  predicate Given(p: Option<string>) { p.Some? && p.value != [] }

  predicate Selected(r: AttendanceRecord, employeeId: Option<string>, start: Option<string>, end: Option<string>) {
    && (Given(employeeId) ==> r.employeeId == employeeId.value)
    && (Given(start) ==> LessEq(start.value, r.date))
    && (Given(end) ==> LessEq(r.date, end.value))
  }

  function Filter(records: seq<AttendanceRecord>, employeeId: Option<string>, start: Option<string>,
                  end: Option<string>): (s: seq<AttendanceRecord>)
    ensures forall r :: r in s <==> r in records && Selected(r, employeeId, start, end)
    ensures forall r :: Selected(r, employeeId, start, end) ==> multiset(s)[r] == multiset(records)[r]
  {
    if records == [] then []
    else
      var rest := Filter(records[1..], employeeId, start, end);
      assert records == [records[0]] + records[1..];
      if Selected(records[0], employeeId, start, end) then [records[0]] + rest else rest
  }

  /** Latest date first. */
  predicate NewestFirst(s: seq<AttendanceRecord>) {
    forall i, j :: 0 <= i < j < |s| ==> LessEq(s[j].date, s[i].date)
  }

  /** Places `x` before the first record whose date is not later than its own. */
  function InsertByDate(x: AttendanceRecord, s: seq<AttendanceRecord>): seq<AttendanceRecord> {
    if s == [] || LessEq(s[0].date, x.date) then [x] + s else [s[0]] + InsertByDate(x, s[1..])
  }

  /** The comparator sort `a.date < b.date ? 1 : -1`: newest first, ties in an unspecified order. */
  function SortNewestFirst(s: seq<AttendanceRecord>): seq<AttendanceRecord> {
    if s == [] then [] else InsertByDate(s[0], SortNewestFirst(s[1..]))
  }

  lemma {:induction false} InsertByDateCount(x: AttendanceRecord, s: seq<AttendanceRecord>)
    ensures multiset(InsertByDate(x, s)) == multiset(s) + multiset{x}
  {
    if !(s == [] || LessEq(s[0].date, x.date)) {
      InsertByDateCount(x, s[1..]);
      assert s == [s[0]] + s[1..];
    }
  }

  lemma {:induction false} InsertByDateSorted(x: AttendanceRecord, s: seq<AttendanceRecord>)
    requires NewestFirst(s)
    ensures NewestFirst(InsertByDate(x, s))
  {
    if s == [] || LessEq(s[0].date, x.date) {
      forall j | 0 < j < |[x] + s| ensures LessEq(([x] + s)[j].date, x.date) {
        LessEqTotalOrder(s[j - 1].date, s[0].date, x.date);
      }
    } else {
      var rest := InsertByDate(x, s[1..]);
      InsertByDateSorted(x, s[1..]);
      InsertByDateCount(x, s[1..]);
      LessEqTotalOrder(s[0].date, x.date, x.date);
      forall j | 0 <= j < |rest| ensures LessEq(rest[j].date, s[0].date) {
        assert rest[j] in multiset(rest);
        if rest[j] != x {
          assert rest[j] in multiset(s[1..]);
          var k :| 0 <= k < |s[1..]| && s[1..][k] == rest[j];
          assert s[k + 1] == rest[j];
        }
      }
    }
  }

  /** The sort puts the latest dates first and keeps every record exactly as often as it occurs. */
  lemma {:induction false} SortNewestFirstSpec(s: seq<AttendanceRecord>)
    ensures NewestFirst(SortNewestFirst(s))
    ensures multiset(SortNewestFirst(s)) == multiset(s)
  {
    if s != [] {
      SortNewestFirstSpec(s[1..]);
      InsertByDateSorted(s[0], SortNewestFirst(s[1..]));
      InsertByDateCount(s[0], SortNewestFirst(s[1..]));
      assert s == [s[0]] + s[1..];
    }
  }

  class AttendanceStore {
    var records: seq<AttendanceRecord>
    var leaves: seq<LeaveRequest>
    var overtimeRequests: seq<OvertimeRequest>

    /** An empty store. */
    constructor ()
      ensures records == [] && leaves == [] && overtimeRequests == []
    {
      records := [];
      leaves := [];
      overtimeRequests := [];
    }

    /**
     * `fetchAttendance`: exactly the records of the employee (when given)
     * dated from `start` to `end` (each bound optional, in string order),
     * latest first.
     */
    function FetchAttendance(employeeId: Option<string>, start: Option<string>, end: Option<string>): (s: seq<AttendanceRecord>)
      reads this
      ensures forall r :: r in s <==> r in records && Selected(r, employeeId, start, end)
      ensures forall r :: Selected(r, employeeId, start, end) ==> multiset(s)[r] == multiset(records)[r]
      ensures NewestFirst(s)
    {
      var filtered := Filter(records, employeeId, start, end);
      SortNewestFirstSpec(filtered);
      SortNewestFirst(filtered)
    }

    /** `fetchLeaves`: the leave requests of the employee, or all when none is given. */
    function FetchLeaves(employeeId: Option<string>): (s: seq<LeaveRequest>)
      reads this
      ensures |s| <= |leaves|
      ensures forall l :: l in s <==> l in leaves && (Given(employeeId) ==> l.employeeId == employeeId.value)
      ensures Given(employeeId) ==> forall l :: multiset(s)[l] == if l.employeeId == employeeId.value then multiset(leaves)[l] else 0
      ensures !Given(employeeId) ==> s == leaves
    {
      if Given(employeeId) then LeavesOfCount(leaves, employeeId.value); LeavesOf(leaves, employeeId.value) else leaves
    }

    /** `fetchOvertime`: the overtime requests of the employee, or all when none is given. */
    function FetchOvertime(employeeId: Option<string>): (s: seq<OvertimeRequest>)
      reads this
      ensures |s| <= |overtimeRequests|
      ensures forall o :: o in s <==> o in overtimeRequests && (Given(employeeId) ==> o.employeeId == employeeId.value)
      ensures Given(employeeId) ==> forall o :: multiset(s)[o] == if o.employeeId == employeeId.value then multiset(overtimeRequests)[o] else 0
      ensures !Given(employeeId) ==> s == overtimeRequests
    {
      if Given(employeeId) then RequestsOfCount(overtimeRequests, employeeId.value); RequestsOf(overtimeRequests, employeeId.value) else overtimeRequests
    }

    /**
     * `setAttendanceForDate`: it always writes the store, so when storage
     * refuses the write the call rejects (`None`) and the stored list stays.
     */
    method SetAttendanceForDate(employeeId: string, date: string, timeIn: TimeUpdate, timeOut: TimeUpdate, nineAm: int,
                                storageWorks: bool)
      returns (res: Option<AttendanceRecord>)
      modifies this
      ensures var o := SetForDate(old(records), employeeId, date, timeIn, timeOut, nineAm);
        if storageWorks then res == Some(o.rec) && records == o.records
        else res == None && records == old(records)
      ensures leaves == old(leaves) && overtimeRequests == old(overtimeRequests)
    {
      var rs := records;
      var rec;
      var i := Find(rs, employeeId, date);
      if i == |rs| {
        rec := NewRecord(employeeId, date, None, None, Absent);
        rs := rs + [rec];
      } else {
        rec := rs[i];
      }
      if timeIn.Replace? { rec := rec.(timeIn := timeIn.value); }
      if timeOut.Replace? { rec := rec.(timeOut := timeOut.value); }
      if rec.timeIn.Some? && rec.timeOut.Some? {
        var hours := HoursWorked(rec.timeIn.value, rec.timeOut.value);
        rec := rec.(hoursWorked := hours);
        rec := rec.(overtimeHours := OvertimeOf(rec.hoursWorked));
        rec := rec.(lateMinutes := LateMinutes(rec.timeIn.value, nineAm));
        rec := rec.(status := Present);
      } else if rec.timeIn.Some? || rec.timeOut.Some? {
        rec := rec.(status := if rec.timeIn.Some? then Present else Pending);
      } else {
        rec := rec.(status := Absent);
      }
      rs := rs[i := rec];
      if !storageWorks {
        return None;
      }
      records := rs;
      res := Some(rec);
    }

    /**
     * `logTimeIn`: a repeated clock-in answers the stored record without
     * writing; otherwise the write happens and a refused write rejects.
     */
    method LogTimeIn(employeeId: string, now: int, today: string, storageWorks: bool) returns (res: Option<AttendanceRecord>)
      modifies this
      ensures var o := TimeIn(old(records), employeeId, now, today);
        if storageWorks || !TimeInWrites(old(records), employeeId, today) then res == Some(o.rec) && records == o.records
        else res == None && records == old(records)
      ensures leaves == old(leaves) && overtimeRequests == old(overtimeRequests)
    {
      var rec;
      var i := Find(records, employeeId, today);
      if i < |records| {
        rec := records[i];
        if rec.timeIn.Some? { return Some(rec); }
        rec := rec.(timeIn := Some(now));
        rec := rec.(status := Present);
        if !storageWorks { return None; }
        records := records[i := rec];
        return Some(rec);
      }
      rec := NewRecord(employeeId, today, Some(now), None, Present);
      if !storageWorks { return None; }
      records := records + [rec];
      res := Some(rec);
    }

    /**
     * `logTimeOut`: a repeated clock-out answers the stored record without
     * writing; otherwise the write happens and a refused write rejects.
     */
    method LogTimeOut(employeeId: string, now: int, today: string, nineAm: int, storageWorks: bool)
      returns (res: Option<AttendanceRecord>)
      modifies this
      ensures var o := TimeOut(old(records), employeeId, now, today, nineAm);
        if storageWorks || !TimeOutWrites(old(records), employeeId, today) then res == Some(o.rec) && records == o.records
        else res == None && records == old(records)
      ensures leaves == old(leaves) && overtimeRequests == old(overtimeRequests)
    {
      var rec;
      var i := Find(records, employeeId, today);
      if i == |records| {
        rec := NewRecord(employeeId, today, None, Some(now), Pending);
        if !storageWorks { return None; }
        records := records + [rec];
        return Some(rec);
      }
      rec := records[i];
      if rec.timeOut.Some? { return Some(rec); }
      rec := rec.(timeOut := Some(now));
      if rec.timeIn.Some? {
        var hours := HoursWorked(rec.timeIn.value, now);
        rec := rec.(hoursWorked := hours);
        rec := rec.(overtimeHours := OvertimeOf(rec.hoursWorked));
        rec := rec.(lateMinutes := LateMinutes(rec.timeIn.value, nineAm));
        rec := rec.(status := Present);
      } else {
        rec := rec.(status := Pending);
      }
      if !storageWorks { return None; }
      records := records[i := rec];
      res := Some(rec);
    }

    /**
     * `submitLeave`: a pending request with id `L-{now}`, appended when
     * storage accepts the write; a refused write is swallowed and the request
     * is answered all the same.
     */
    method SubmitLeave(employeeId: string, leaveType: string, startDate: string, endDate: string,
                       reason: Option<string>, now: nat, storageWorks: bool) returns (rec: LeaveRequest)
      modifies this
      ensures rec == LeaveRequest("L-" + JsNumber.NatToString(now), employeeId, leaveType, startDate, endDate, reason, RequestPending)
      ensures leaves == if storageWorks then old(leaves) + [rec] else old(leaves)
      ensures records == old(records) && overtimeRequests == old(overtimeRequests)
    {
      rec := LeaveRequest("L-" + JsNumber.NatToString(now), employeeId, leaveType, startDate, endDate, reason, RequestPending);
      if storageWorks {
        leaves := leaves + [rec];
      }
    }

    /**
     * `submitOvertime`: a pending request with id `OT-{now}`, appended when
     * storage accepts the write; a refused write is swallowed and the request
     * is answered all the same.
     */
    method SubmitOvertime(employeeId: string, date: string, hours: real, reason: Option<string>, now: nat, storageWorks: bool)
      returns (rec: OvertimeRequest)
      modifies this
      ensures rec == OvertimeRequest("OT-" + JsNumber.NatToString(now), employeeId, date, hours, reason, RequestPending)
      ensures overtimeRequests == if storageWorks then old(overtimeRequests) + [rec] else old(overtimeRequests)
      ensures records == old(records) && leaves == old(leaves)
    {
      rec := OvertimeRequest("OT-" + JsNumber.NatToString(now), employeeId, date, hours, reason, RequestPending);
      if storageWorks {
        overtimeRequests := overtimeRequests + [rec];
      }
    }
  }

  /** The leave requests of one employee, in their stored order. */
  function LeavesOf(s: seq<LeaveRequest>, employeeId: string): (r: seq<LeaveRequest>)
    ensures |r| <= |s|
    ensures forall l :: l in r <==> l in s && l.employeeId == employeeId
  {
    if s == [] then []
    else
      var rest := LeavesOf(s[1..], employeeId);
      assert s == [s[0]] + s[1..];
      if s[0].employeeId == employeeId then [s[0]] + rest else rest
  }

  /** Filtering keeps every request of the employee as often as it is stored, and no other. */
  lemma {:induction false} LeavesOfCount(s: seq<LeaveRequest>, employeeId: string)
    ensures forall l :: multiset(LeavesOf(s, employeeId))[l] == if l.employeeId == employeeId then multiset(s)[l] else 0
  {
    if s != [] {
      LeavesOfCount(s[1..], employeeId);
      assert s == [s[0]] + s[1..];
    }
  }

  /** Filtering keeps order: the requests of a concatenation are those of each part, in turn. */
  lemma {:induction false} LeavesOfAppend(a: seq<LeaveRequest>, b: seq<LeaveRequest>, employeeId: string)
    ensures LeavesOf(a + b, employeeId) == LeavesOf(a, employeeId) + LeavesOf(b, employeeId)
  {
    if a == [] {
      assert a + b == b;
    } else {
      var ab := a + b;
      assert ab[0] == a[0] && ab[1..] == a[1..] + b;
      LeavesOfAppend(a[1..], b, employeeId);
      var head := if a[0].employeeId == employeeId then [a[0]] else [];
      assert LeavesOf(ab, employeeId) == head + LeavesOf(a[1..] + b, employeeId);
      assert LeavesOf(a, employeeId) == head + LeavesOf(a[1..], employeeId);
    }
  }

  /** A newly submitted leave request is listed last among its employee's requests. */
  lemma LeavesOfSubmitted(s: seq<LeaveRequest>, l: LeaveRequest, employeeId: string)
    ensures LeavesOf(s + [l], employeeId) == LeavesOf(s, employeeId) + (if l.employeeId == employeeId then [l] else [])
  {
    LeavesOfAppend(s, [l], employeeId);
  }

  /** The overtime requests of one employee, in their stored order. */
  function RequestsOf(s: seq<OvertimeRequest>, employeeId: string): (r: seq<OvertimeRequest>)
    ensures |r| <= |s|
    ensures forall o :: o in r <==> o in s && o.employeeId == employeeId
  {
    if s == [] then []
    else
      var rest := RequestsOf(s[1..], employeeId);
      assert s == [s[0]] + s[1..];
      if s[0].employeeId == employeeId then [s[0]] + rest else rest
  }

  /** Filtering keeps every request of the employee as often as it is stored, and no other. */
  lemma {:induction false} RequestsOfCount(s: seq<OvertimeRequest>, employeeId: string)
    ensures forall o :: multiset(RequestsOf(s, employeeId))[o] == if o.employeeId == employeeId then multiset(s)[o] else 0
  {
    if s != [] {
      RequestsOfCount(s[1..], employeeId);
      assert s == [s[0]] + s[1..];
    }
  }

  /** Filtering keeps order: the requests of a concatenation are those of each part, in turn. */
  lemma {:induction false} RequestsOfAppend(a: seq<OvertimeRequest>, b: seq<OvertimeRequest>, employeeId: string)
    ensures RequestsOf(a + b, employeeId) == RequestsOf(a, employeeId) + RequestsOf(b, employeeId)
  {
    if a == [] {
      assert a + b == b;
    } else {
      var ab := a + b;
      assert ab[0] == a[0] && ab[1..] == a[1..] + b;
      RequestsOfAppend(a[1..], b, employeeId);
      var head := if a[0].employeeId == employeeId then [a[0]] else [];
      assert RequestsOf(ab, employeeId) == head + RequestsOf(a[1..] + b, employeeId);
      assert RequestsOf(a, employeeId) == head + RequestsOf(a[1..], employeeId);
    }
  }

  /** A newly submitted overtime request is listed last among its employee's requests. */
  lemma RequestsOfSubmitted(s: seq<OvertimeRequest>, o: OvertimeRequest, employeeId: string)
    ensures RequestsOf(s + [o], employeeId) == RequestsOf(s, employeeId) + (if o.employeeId == employeeId then [o] else [])
  {
    RequestsOfAppend(s, [o], employeeId);
  }
}
