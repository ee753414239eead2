/**
 * The server attendance endpoint: the derived-field computation shared by
 * POST and PUT (with their different status defaults), the POST upsert by
 * (employee, date), the PUT update by id with its fallbacks, and the mapping
 * of a stored row to its JSON shape.
 *
 * The database table is a map from row id to row. Ids the database would
 * generate, the clock, the instant of 09:00 local time on the record's date
 * and the parsed request times and date are inputs.
 */
module AttendanceApi {
  import opened Wrappers
  import JsNumber
  import Civil
  import AttendanceClient

  const MsPerDay := 86400000

  /** The UTC calendar day (a `Civil` day number) of an instant: what `toISOString().slice(0, 10)` names. */
  function UtcDay(instant: int): int {
    instant / MsPerDay
  }

  /** `new Date("yyyy-mm-dd")` is midnight UTC of that day, and every instant of the day names it back. */
  lemma UtcDayOfDate(d: Civil.Date, ms: int)
    requires Civil.ValidDate(d) && 0 <= ms < MsPerDay
    ensures UtcDay(Civil.DayNumber(d) * MsPerDay + ms) == Civil.DayNumber(d)
  {
  }

  /** A stored attendance row; `date` is the instant written for the day; every column other than the keys may be null. */
  datatype DbAttendance = DbAttendance(
    id: string,
    employeeId: string,
    date: int,
    timeIn: Option<int>,
    timeOut: Option<int>,
    hoursWorked: Option<real>,
    overtimeHours: Option<real>,
    lateMinutes: Option<int>,
    undertimeMinutes: Option<int>,
    status: Option<string>,
    source: Option<string>,
    createdAt: Option<int>,
    updatedAt: Option<int>)

  /** The JSON shape of a row; `date` is the UTC day of the stored instant. */
  datatype ApiAttendance = ApiAttendance(
    id: string,
    employeeId: string,
    date: int,
    timeIn: Option<int>,
    timeOut: Option<int>,
    hoursWorked: real,
    overtimeHours: real,
    lateMinutes: int,
    undertimeMinutes: int,
    status: string,
    source: Option<string>,
    createdAt: Option<int>,
    updatedAt: Option<int>)

  /** `mapDbAttendance`: no row maps to nothing; null counters read as 0 and a null status as "absent". */
  function MapDbAttendance(a: Option<DbAttendance>): (r: Option<ApiAttendance>)
    ensures r.None? <==> a.None?
    ensures a.Some? ==> var v, row := r.value, a.value;
      && v.id == row.id && v.employeeId == row.employeeId && v.date == UtcDay(row.date)
      && v.timeIn == row.timeIn && v.timeOut == row.timeOut && v.source == row.source
      && v.createdAt == row.createdAt && v.updatedAt == row.updatedAt
      && (row.hoursWorked.None? ==> v.hoursWorked == 0.0)
      && (row.hoursWorked.Some? ==> v.hoursWorked == row.hoursWorked.value)
      && (row.overtimeHours.None? ==> v.overtimeHours == 0.0)
      && (row.overtimeHours.Some? ==> v.overtimeHours == row.overtimeHours.value)
      && (row.lateMinutes.None? ==> v.lateMinutes == 0)
      && (row.lateMinutes.Some? ==> v.lateMinutes == row.lateMinutes.value)
      && (row.undertimeMinutes.None? ==> v.undertimeMinutes == 0)
      && (row.undertimeMinutes.Some? ==> v.undertimeMinutes == row.undertimeMinutes.value)
      && (row.status.None? ==> v.status == "absent")
      && (row.status.Some? ==> v.status == row.status.value)
  {
    match a
    case None => None
    case Some(row) => Some(ApiAttendance(
      row.id, row.employeeId, UtcDay(row.date), row.timeIn, row.timeOut,
      row.hoursWorked.GetOr(0.0), row.overtimeHours.GetOr(0.0),
      row.lateMinutes.GetOr(0), row.undertimeMinutes.GetOr(0),
      row.status.GetOr("absent"), row.source, row.createdAt, row.updatedAt))
  }

  // ---------------------------------------------------------------------------
  // Derived fields

  datatype Derived = Derived(hoursWorked: real, overtimeHours: real, lateMinutes: int, undertimeMinutes: int, status: string)

  /**
   * `computeDerived`: hours and overtime are computed unrounded and rounded
   * to hundredths at the end; undertime is always 0; `fallback` is the status
   * when there are no times ("absent" in POST, the stored status in PUT).
   */
  function ComputeDerived(tIn: Option<int>, tOut: Option<int>, nineAm: int, fallback: string): Derived {
    var hours :=
      if tIn.Some? && tOut.Some? && tOut.value - tIn.value > 0 then
        (tOut.value - tIn.value) as real / 3600000.0
      else 0.0;
    var overtime := if tIn.Some? && tOut.Some? && hours > 8.0 then hours - 8.0 else 0.0;
    var lateMinutes := if tIn.Some? && tOut.Some? then AttendanceClient.LateMinutes(tIn.value, nineAm) else 0;
    var status :=
      if tIn.Some? && tOut.Some? then "present"
      else if tIn.Some? then "present"
      else if tOut.Some? then "pending"
      else fallback;
    Derived(JsNumber.Round2(hours), JsNumber.Round2(overtime), lateMinutes, 0, status)
  }

  /**
   * With both times the status is "present", the hours are non-negative, the
   * overtime is exactly the rounded hours beyond eight, and lateness is 0 or
   * more than 15 minutes; with one time the status is "present" after a
   * clock-in and "pending" otherwise; with none it is the fallback, and no
   * hours, overtime or lateness are recorded. Undertime is always 0.
   */
  lemma ComputeDerivedRule(tIn: Option<int>, tOut: Option<int>, nineAm: int, fallback: string)
    ensures var d := ComputeDerived(tIn, tOut, nineAm, fallback);
      && d.undertimeMinutes == 0
      && (tIn.Some? && tOut.Some? ==>
            && d.status == "present" && d.hoursWorked >= 0.0
            && d.overtimeHours == (if d.hoursWorked > 8.0 then d.hoursWorked - 8.0 else 0.0)
            && (d.lateMinutes == 0 || d.lateMinutes > 15))
      && (tIn.Some? && tOut.None? ==> d.status == "present")
      && (tIn.None? && tOut.Some? ==> d.status == "pending")
      && (!(tIn.Some? && tOut.Some?) ==> d.hoursWorked == 0.0 && d.overtimeHours == 0.0 && d.lateMinutes == 0)
      && (tIn.None? && tOut.None? ==> d.status == fallback)
  {
    JsNumber.RoundOfInt(0);
    if tIn.Some? && tOut.Some? {
      var d := ComputeDerived(tIn, tOut, nineAm, fallback);
      assert d.hoursWorked == AttendanceClient.HoursWorked(tIn.value, tOut.value);
      OvertimeAgrees(tIn.value, tOut.value);
    }
  }

  /** Rounding the overtime of unrounded hours gives what rounding the hours first gives. */
  lemma OvertimeAgrees(tIn: int, tOut: int)
    ensures var hours := if tOut - tIn > 0 then (tOut - tIn) as real / 3600000.0 else 0.0;
      var hw := JsNumber.Round2(hours);
      JsNumber.Round2(if hours > 8.0 then hours - 8.0 else 0.0) == (if hw > 8.0 then hw - 8.0 else 0.0)
  {
    var hours := if tOut - tIn > 0 then (tOut - tIn) as real / 3600000.0 else 0.0;
    var hw := JsNumber.Round2(hours);
    JsNumber.RoundOfInt(0);
    JsNumber.RoundOfInt(800);
    assert JsNumber.Round2(8.0) == 8.0;
    if hours > 8.0 {
      JsNumber.Round2ShiftWhole(hours, 8);
      JsNumber.Round2Monotone(8.0, hours);
    } else {
      JsNumber.Round2Monotone(hours, 8.0);
    }
  }

  /**
   * The server and the browser store derive the same hours, overtime, lateness
   * and status from the same two times, although they round at different steps.
   */
  lemma ServerAgreesWithClient(tIn: int, tOut: int, nineAm: int, fallback: string)
    ensures var d := ComputeDerived(Some(tIn), Some(tOut), nineAm, fallback);
      var hw := AttendanceClient.HoursWorked(tIn, tOut);
      && d.hoursWorked == hw
      && d.overtimeHours == AttendanceClient.OvertimeOf(hw)
      && d.lateMinutes == AttendanceClient.LateMinutes(tIn, nineAm)
      && d.status == "present"
  {
    OvertimeAgrees(tIn, tOut);
    AttendanceClient.OvertimeOfHoursWorked(tIn, tOut);
  }

  // ---------------------------------------------------------------------------
  // Requests and responses

  /** The POST body; an absent, null or empty `employeeId` or `date` is `None`, times are parsed instants. */
  datatype PostBody = PostBody(employeeId: Option<string>, date: Option<string>,
                               timeIn: Option<int>, timeOut: Option<int>, source: Option<string>)

  /** The PUT body; an absent, null or empty `id` is `None`. */
  datatype PutBody = PutBody(id: Option<string>, timeIn: Option<int>, timeOut: Option<int>,
                             status: Option<string>, source: Option<string>)

  datatype Payload = Record(value: ApiAttendance) | Error(message: string)
  datatype Response = Response(code: int, payload: Payload)

  predicate Present(p: Option<string>) { p.Some? && p.value != [] }

  /** The row of an employee's day: the stored instant equals `new Date(date)` of the request. */
  predicate IsFor(row: DbAttendance, employeeId: string, date: int) {
    row.employeeId == employeeId && row.date == date
  }

  /** A POST body with both an employee id and a date. */
  predicate ValidPost(body: Option<PostBody>) {
    body.Some? && Present(body.value.employeeId) && Present(body.value.date)
  }

  /** Some row is stored for the (employee, date). */
  predicate HasDay(rows: map<string, DbAttendance>, employeeId: string, date: int) {
    exists k :: k in rows && IsFor(rows[k], employeeId, date)
  }

  /** At most one row per (employee, date). */
  predicate UniqueDay(rows: map<string, DbAttendance>) {
    forall a, b :: a in rows && b in rows && a != b ==>
      !IsFor(rows[b], rows[a].employeeId, rows[a].date)
  }

  predicate KeyedById(rows: map<string, DbAttendance>) {
    forall k :: k in rows ==> rows[k].id == k
  }

  /** The columns POST and PUT write: both times, the derived fields, status, source and `updated_at`. */
  function Write(row: DbAttendance, tIn: Option<int>, tOut: Option<int>, d: Derived, status: string,
                 source: Option<string>, now: int): DbAttendance {
    row.(timeIn := tIn, timeOut := tOut, hoursWorked := Some(d.hoursWorked),
         overtimeHours := Some(d.overtimeHours), lateMinutes := Some(d.lateMinutes),
         undertimeMinutes := Some(d.undertimeMinutes), status := Some(status), source := source,
         updatedAt := Some(now))
  }

  /** A written row reads back as exactly the derived values it was given. */
  lemma WriteReadsBack(row: DbAttendance, tIn: Option<int>, tOut: Option<int>, d: Derived, status: string,
                       source: Option<string>, now: int)
    ensures var v := MapDbAttendance(Some(Write(row, tIn, tOut, d, status, source, now))).value;
      && v.id == row.id && v.employeeId == row.employeeId && v.date == UtcDay(row.date)
      && v.createdAt == row.createdAt && v.updatedAt == Some(now)
      && v.timeIn == tIn && v.timeOut == tOut && v.source == source
      && v.hoursWorked == d.hoursWorked && v.overtimeHours == d.overtimeHours
      && v.lateMinutes == d.lateMinutes && v.undertimeMinutes == d.undertimeMinutes && v.status == status
  {
  }

  /** Replacing the row of a day by one of the same day, or adding a day no row has, keeps one row per day. */
  lemma UpsertKeepsUnique(rows: map<string, DbAttendance>, k: string, r: DbAttendance)
    requires UniqueDay(rows)
    requires k in rows ==> IsFor(r, rows[k].employeeId, rows[k].date)
    requires k !in rows ==> forall j :: j in rows ==> !IsFor(rows[j], r.employeeId, r.date)
    ensures UniqueDay(rows[k := r])
  {
    var after := rows[k := r];
    forall a, b | a in after && b in after && a != b
      ensures !IsFor(after[b], after[a].employeeId, after[a].date)
    {
      if a == k {
        if k in rows { assert !IsFor(rows[b], rows[k].employeeId, rows[k].date); }
      } else if b == k {
        if k in rows { assert !IsFor(rows[k], rows[a].employeeId, rows[a].date); }
        else { assert !IsFor(rows[a], r.employeeId, r.date); }
      }
    }
  }

  class AttendanceTable {
    var rows: map<string, DbAttendance>

    constructor ()
      ensures rows == map[]
    {
      rows := map[];
    }

    /**
     * POST: 400 without an employee id or a date. `dateValue` is `new Date(date)`,
     * None for an Invalid Date, which the database refuses (500). Otherwise the
     * row whose stored instant is that date, if any, is overwritten with the
     * given times, the derived fields, the source and `updated_at` (200), else
     * a new row is created with both timestamps `now` (201). A database error
     * on creating (an id already taken) is a 500.
     */
    method Post(body: Option<PostBody>, dateValue: Option<int>, nineAm: int, now: int, newId: string) returns (r: Response)
      modifies this
      ensures !ValidPost(body) ==>
        r == Response(400, Error("employeeId and date are required")) && rows == old(rows)
      ensures ValidPost(body) && dateValue.None? ==> r == Response(500, Error("internal")) && rows == old(rows)
      ensures r.code == 200 ==>
        var b := body.value;
        var d := ComputeDerived(b.timeIn, b.timeOut, nineAm, "absent");
        && dateValue.Some?
        && (exists k :: k in old(rows) && IsFor(old(rows)[k], b.employeeId.value, dateValue.value)
              && rows == old(rows)[k := Write(old(rows)[k], b.timeIn, b.timeOut, d, d.status, b.source, now)]
              && r.payload == Record(MapDbAttendance(Some(rows[k])).value))
      ensures r.code == 201 ==>
        var b := body.value;
        var d := ComputeDerived(b.timeIn, b.timeOut, nineAm, "absent");
        && dateValue.Some?
        && var row := DbAttendance(newId, b.employeeId.value, dateValue.value, b.timeIn, b.timeOut,
          Some(d.hoursWorked), Some(d.overtimeHours), Some(d.lateMinutes), Some(d.undertimeMinutes),
          Some(d.status), b.source, Some(now), Some(now));
        && (forall k :: k in old(rows) ==> !IsFor(old(rows)[k], b.employeeId.value, dateValue.value))
        && newId !in old(rows)
        && rows == old(rows)[newId := row]
        && r.payload == Record(MapDbAttendance(Some(row)).value)
      ensures r.code == 500 ==> rows == old(rows) && r.payload == Error("internal")
      ensures r.code in {200, 201, 400, 500}
      ensures ValidPost(body) && dateValue.Some? ==>
        (HasDay(old(rows), body.value.employeeId.value, dateValue.value) <==> r.code == 200)
      ensures ValidPost(body) ==> r.code != 400
      ensures ValidPost(body) && dateValue.Some? && !HasDay(old(rows), body.value.employeeId.value, dateValue.value) ==>
        (newId !in old(rows) ==> r.code == 201) && (newId in old(rows) ==> r == Response(500, Error("internal")))
      ensures r.code == 400 ==> rows == old(rows)
      ensures UniqueDay(old(rows)) ==> UniqueDay(rows)
      ensures KeyedById(old(rows)) ==> KeyedById(rows)
    {
      if body.None? || !Present(body.value.employeeId) || !Present(body.value.date) {
        return Response(400, Error("employeeId and date are required"));
      }
      if dateValue.None? {
        return Response(500, Error("internal"));
      }
      var b := body.value;
      var employeeId, date := b.employeeId.value, dateValue.value;
      var d := ComputeDerived(b.timeIn, b.timeOut, nineAm, "absent");
      if exists k :: k in rows && IsFor(rows[k], employeeId, date) {
        var k :| k in rows && IsFor(rows[k], employeeId, date);
        var updated := Write(rows[k], b.timeIn, b.timeOut, d, d.status, b.source, now);
        if UniqueDay(rows) { UpsertKeepsUnique(rows, k, updated); }
        rows := rows[k := updated];
        return Response(200, Record(MapDbAttendance(Some(updated)).value));
      }
      if newId in rows {
        return Response(500, Error("internal"));
      }
      var created := DbAttendance(newId, employeeId, date, b.timeIn, b.timeOut,
        Some(d.hoursWorked), Some(d.overtimeHours), Some(d.lateMinutes), Some(d.undertimeMinutes),
        Some(d.status), b.source, Some(now), Some(now));
      if UniqueDay(rows) { UpsertKeepsUnique(rows, newId, created); }
      rows := rows[newId := created];
      return Response(201, Record(MapDbAttendance(Some(created)).value));
    }

    /**
     * PUT: 400 without an id, 404 for an unknown one; otherwise times not
     * given fall back to the stored ones, the derived fields are recomputed
     * with the stored status (or "absent") as the default, a given status or
     * source overrides the derived status or the stored source, and
     * `updated_at` is `now`.
     */
    method Put(body: Option<PutBody>, nineAm: int, now: int) returns (r: Response)
      modifies this
      ensures body.None? || !Present(body.value.id) ==> r == Response(400, Error("id is required")) && rows == old(rows)
      ensures body.Some? && Present(body.value.id) && body.value.id.value !in old(rows) ==>
        r == Response(404, Error("not found")) && rows == old(rows)
      ensures body.Some? && Present(body.value.id) && body.value.id.value in old(rows) ==>
        var b, k := body.value, body.value.id.value;
        var existing := old(rows)[k];
        var tIn := if b.timeIn.Some? then b.timeIn else existing.timeIn;
        var tOut := if b.timeOut.Some? then b.timeOut else existing.timeOut;
        var d := ComputeDerived(tIn, tOut, nineAm, existing.status.GetOr("absent"));
        var row := Write(existing, tIn, tOut, d, b.status.GetOr(d.status),
                         if b.source.Some? then b.source else existing.source, now);
        && rows == old(rows)[k := row]
        && r == Response(200, Record(MapDbAttendance(Some(row)).value))
      ensures UniqueDay(old(rows)) ==> UniqueDay(rows)
      ensures KeyedById(old(rows)) ==> KeyedById(rows)
    {
      if body.None? || !Present(body.value.id) {
        return Response(400, Error("id is required"));
      }
      var b := body.value;
      var id := b.id.value;
      if id !in rows {
        return Response(404, Error("not found"));
      }
      var existing := rows[id];
      var tIn := if b.timeIn.Some? then b.timeIn else existing.timeIn;
      var tOut := if b.timeOut.Some? then b.timeOut else existing.timeOut;
      var d := ComputeDerived(tIn, tOut, nineAm, existing.status.GetOr("absent"));
      var updated := Write(existing, tIn, tOut, d, b.status.GetOr(d.status),
                           if b.source.Some? then b.source else existing.source, now);
      if UniqueDay(rows) { UpsertKeepsUnique(rows, id, updated); }
      rows := rows[id := updated];
      return Response(200, Record(MapDbAttendance(Some(updated)).value));
    }
  }

  /** POST on a day that has a row, repeated with the same body, rewrites the row to the same values. */
  lemma PostWriteIdempotent(row: DbAttendance, b: PostBody, nineAm: int, now: int)
    ensures var d := ComputeDerived(b.timeIn, b.timeOut, nineAm, "absent");
      var once := Write(row, b.timeIn, b.timeOut, d, d.status, b.source, now);
      Write(once, b.timeIn, b.timeOut, d, d.status, b.source, now) == once
  {
  }

  /** A PUT with no times, status or source only recomputes: stored times and source are kept. */
  lemma PutWithoutFields(existing: DbAttendance, nineAm: int, now: int)
    ensures var d := ComputeDerived(existing.timeIn, existing.timeOut, nineAm, existing.status.GetOr("absent"));
      var row := Write(existing, existing.timeIn, existing.timeOut, d, d.status, existing.source, now);
      && row.timeIn == existing.timeIn && row.timeOut == existing.timeOut && row.source == existing.source
      && (existing.timeIn.None? && existing.timeOut.None? ==> row.status == Some(existing.status.GetOr("absent")))
  {
  }
}
