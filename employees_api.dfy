/**
 * The server employee endpoint: e-mail shape, input validation, the page and
 * page-size arithmetic of the listing, the defaults of the stored-row
 * mapping, the create and update payloads with undefined keys removed, and
 * the id checks of update and delete.
 *
 * A request body is a JSON scalar or object, and a stored row is an object:
 * a map from key to a scalar JSON value. The database table is a map from employee id to row; the id the
 * database would generate and the verdict of `Date.parse` are inputs.
 */
module EmployeesApi {
  import opened Wrappers
  import opened Text
  import JsNumber

  /** A scalar JSON value, with `undefined` for a missing key. */
  datatype Json = Undefined | Null | Bool(b: bool) | Num(n: real) | Str(s: string)

  type Object = map<string, Json>

  /**
   * A parsed request body: a scalar (JSON `null` included) or an object.
   * Reading a key of a scalar that is not null gives `undefined`.
   */
  datatype Body = Scalar(v: Json) | ObjectBody(fields: Object)

  /** The keys a body offers to `body.key`: none for a scalar. */
  function FieldsOf(body: Body): Object {
    if body.ObjectBody? then body.fields else map[]
  }

  /** `!body || !body.id`. */
  predicate NoId(body: Body) {
    !Truthy(Get(FieldsOf(body), "id"))
  }

  /** `obj[key]`, `undefined` when the key is missing. */
  function Get(obj: Object, key: string): Json {
    if key in obj then obj[key] else Undefined
  }

  predicate Truthy(v: Json) {
    match v
    case Undefined => false
    case Null => false
    case Bool(b) => b
    case Num(n) => n != 0.0
    case Str(s) => s != []
  }

  /** `v == null`: null or undefined. */
  predicate Nullish(v: Json) { v.Undefined? || v.Null? }

  /** `v ?? d`. */
  function OrElse(v: Json, d: Json): (r: Json)
    ensures Nullish(v) ==> r == d
    ensures !Nullish(v) ==> r == v
  {
    if Nullish(v) then d else v
  }

  /** `Number(v)`. */
  function ToNumber(v: Json): JsNumber.Num {
    match v
    case Undefined => JsNumber.NaN
    case Null => JsNumber.Finite(0.0)
    case Bool(b) => JsNumber.Finite(if b then 1.0 else 0.0)
    case Num(n) => JsNumber.Finite(n)
    case Str(s) => JsNumber.StringToNumber(s)
  }

  // ---------------------------------------------------------------------------
  // E-mail shape

  predicate NoAtOrSpace(s: string) {
    forall k :: 0 <= k < |s| ==> s[k] != '@' && !IsWhitespace(s[k])
  }

  lemma NoAtOrSpaceSlice(s: string, a: nat, b: nat)
    requires NoAtOrSpace(s) && a <= b <= |s|
    ensures NoAtOrSpace(s[a..b])
  {
    assert forall k :: 0 <= k < b - a ==> s[a..b][k] == s[a + k];
  }

  lemma NoAtOrSpaceAround(x: string, y: string)
    requires NoAtOrSpace(x) && NoAtOrSpace(y)
    ensures NoAtOrSpace(x + ['.'] + y)
  {
    var s := x + ['.'] + y;
    forall k | 0 <= k < |s| ensures s[k] != '@' && !IsWhitespace(s[k]) {
      if k < |x| { assert s[k] == x[k]; }
      else if k > |x| { assert s[k] == y[k - |x| - 1]; }
    }
  }

  /**
   * `/^[^@\s]+@[^@\s]+\.[^@\s]+$/`: one `@` with a non-empty local part before
   * it, and after it a part free of `@` and whitespace with a dot that is
   * neither its first nor its last character.
   */
  predicate IsValidEmail(s: string) {
    var i := IndexOf(s, '@');
    && 0 < i < |s|
    && NoAtOrSpace(s[..i])
    && var host := s[i + 1..];
       && |host| >= 3 && NoAtOrSpace(host) && '.' in host[1..|host| - 1]
  }

  /** The address is X@Y.Z with X, Y and Z non-empty and free of `@` and whitespace; Y may hold dots. */
  predicate EmailForm(s: string) {
    exists i, j :: 0 < i && i + 1 < j && j + 1 < |s| && s[i] == '@' && s[j] == '.'
      && NoAtOrSpace(s[..i]) && NoAtOrSpace(s[i + 1..j]) && NoAtOrSpace(s[j + 1..])
  }

  lemma ValidEmailHasForm(s: string)
    requires IsValidEmail(s)
    ensures EmailForm(s)
  {
    var i := IndexOf(s, '@');
    var host := s[i + 1..];
    var mid := host[1..|host| - 1];
    var p :| 0 <= p < |mid| && mid[p] == '.';
    var j := i + 2 + p;
    assert s[j] == host[p + 1] == mid[p];
    assert s[i + 1..j] == host[..p + 1];
    assert s[j + 1..] == host[p + 2..];
    NoAtOrSpaceSlice(host, 0, p + 1);
    NoAtOrSpaceSlice(host, p + 2, |host|);
    assert host[p + 2..|host|] == host[p + 2..];
  }

  lemma FormIsValidEmail(s: string, i: int, j: int)
    requires 0 < i && i + 1 < j && j + 1 < |s| && s[i] == '@' && s[j] == '.'
    requires NoAtOrSpace(s[..i]) && NoAtOrSpace(s[i + 1..j]) && NoAtOrSpace(s[j + 1..])
    ensures IsValidEmail(s)
  {
    assert s == s[..i] + ['@'] + s[i + 1..];
    assert '@' !in s[..i] by {
      forall k | 0 <= k < i ensures s[..i][k] != '@' { }
    }
    IndexOfAfter(s[..i], '@', s[i + 1..]);
    var host := s[i + 1..];
    assert host == s[i + 1..j] + ['.'] + s[j + 1..];
    NoAtOrSpaceAround(s[i + 1..j], s[j + 1..]);
    assert host[1..|host| - 1][j - i - 2] == '.';
  }

  /** `isValidEmail` accepts exactly the addresses of the form X@Y.Z. */
  lemma IsValidEmailIff(s: string)
    ensures IsValidEmail(s) <==> EmailForm(s)
  {
    if IsValidEmail(s) {
      ValidEmailHasForm(s);
    }
    if EmailForm(s) {
      var i, j :| 0 < i && i + 1 < j && j + 1 < |s| && s[i] == '@' && s[j] == '.'
        && NoAtOrSpace(s[..i]) && NoAtOrSpace(s[i + 1..j]) && NoAtOrSpace(s[j + 1..]);
      FormIsValidEmail(s, i, j);
    }
  }

  // ---------------------------------------------------------------------------
  // Validation

  const BodyRequired := "body is required"
  const NameRequired := "name is required"
  const PositionRequired := "position is required"
  const EmailInvalid := "email is invalid"
  const BaseSalaryNotNumber := "baseSalary must be a number"
  const OvertimeRateNotNumber := "overtimeRate must be a number"
  const JoinDateInvalid := "joinDate is invalid"

  /** `!v || String(v).trim().length === 0`; a truthy number or boolean never prints blank. */
  predicate Blank(v: Json) {
    !Truthy(v) || (v.Str? && Trim(v.s) == [])
  }

  /** `v && !isValidEmail(String(v))`; numbers and booleans print without an `@`. */
  predicate BadEmail(v: Json) {
    Truthy(v) && !(v.Str? && IsValidEmail(v.s))
  }

  /** `v != null && isNaN(Number(v))`. */
  predicate NotNumber(v: Json) {
    !Nullish(v) && ToNumber(v) == JsNumber.NaN
  }

  /** `v && isNaN(Date.parse(v))`, with the verdict of `Date.parse` given. */
  predicate BadDate(v: Json, dateParses: Json -> bool) {
    Truthy(v) && !dateParses(v)
  }

  /** `if (failed) errors.push(message)`. */
  function Push(errors: seq<string>, failed: bool, message: string): (r: seq<string>)
    ensures forall x :: x in r <==> x in errors || (failed && x == message)
    ensures r == [] <==> errors == [] && !failed
  {
    if failed then errors + [message] else errors
  }

  /** The errors `validateEmployeeInput` collects for an object body, in push order. */
  function ValidationErrors(b: Object, dateParses: Json -> bool): seq<string> {
    var e1 := Push([], Blank(Get(b, "name")), NameRequired);
    var e2 := Push(e1, Blank(Get(b, "position")), PositionRequired);
    var e3 := Push(e2, BadEmail(Get(b, "email")), EmailInvalid);
    var e4 := Push(e3, NotNumber(Get(b, "baseSalary")), BaseSalaryNotNumber);
    var e5 := Push(e4, NotNumber(Get(b, "overtimeRate")), OvertimeRateNotNumber);
    Push(e5, BadDate(Get(b, "joinDate"), dateParses), JoinDateInvalid)
  }

  /** The input the endpoint accepts, stated positively. */
  predicate Acceptable(b: Object, dateParses: Json -> bool) {
    && Truthy(Get(b, "name")) && !(Get(b, "name").Str? && Trim(Get(b, "name").s) == [])
    && Truthy(Get(b, "position")) && !(Get(b, "position").Str? && Trim(Get(b, "position").s) == [])
    && (Truthy(Get(b, "email")) ==> Get(b, "email").Str? && EmailForm(Get(b, "email").s))
    && (!Nullish(Get(b, "baseSalary")) ==> ToNumber(Get(b, "baseSalary")) != JsNumber.NaN)
    && (!Nullish(Get(b, "overtimeRate")) ==> ToNumber(Get(b, "overtimeRate")) != JsNumber.NaN)
    && (Truthy(Get(b, "joinDate")) ==> dateParses(Get(b, "joinDate")))
  }

  /** Each message is reported exactly when its rule fails. */
  lemma ValidationErrorsRule(b: Object, dateParses: Json -> bool)
    ensures var errs := ValidationErrors(b, dateParses);
      && (NameRequired in errs <==> Blank(Get(b, "name")))
      && (PositionRequired in errs <==> Blank(Get(b, "position")))
      && (EmailInvalid in errs <==> BadEmail(Get(b, "email")))
      && (BaseSalaryNotNumber in errs <==> NotNumber(Get(b, "baseSalary")))
      && (OvertimeRateNotNumber in errs <==> NotNumber(Get(b, "overtimeRate")))
      && (JoinDateInvalid in errs <==> BadDate(Get(b, "joinDate"), dateParses))
  {
    assert |NameRequired| == 16 && |PositionRequired| == 20 && |EmailInvalid| == 16;
    assert |BaseSalaryNotNumber| == 27 && |OvertimeRateNotNumber| == 29 && |JoinDateInvalid| == 19;
    assert NameRequired[0] != EmailInvalid[0];
  }

  /** The list is empty exactly when the input is acceptable. */
  lemma ValidationErrorsEmpty(b: Object, dateParses: Json -> bool)
    ensures ValidationErrors(b, dateParses) == [] <==> Acceptable(b, dateParses)
  {
    var e := Get(b, "email");
    if e.Str? { IsValidEmailIff(e.s); }
  }

  /** A body without keys misses exactly its name and position. */
  lemma NoFieldsErrors(dateParses: Json -> bool)
    ensures ValidationErrors(map[], dateParses) == [NameRequired, PositionRequired]
  {
  }

  /**
   * `validateEmployeeInput`. A null body records "body is required" and then
   * fails reading `body.name`: that case is `None`. Any other scalar has no
   * name and no position; a falsy one also records that the body is required.
   */
  method ValidateEmployeeInput(body: Body, dateParses: Json -> bool) returns (errors: Option<seq<string>>)
    ensures body.Scalar? && Nullish(body.v) <==> errors.None?
    ensures body.Scalar? && !Nullish(body.v) ==>
      errors.value == (if Truthy(body.v) then [] else [BodyRequired]) + [NameRequired, PositionRequired]
    ensures body.ObjectBody? ==> errors.value == ValidationErrors(body.fields, dateParses)
  {
    if body.Scalar? && Nullish(body.v) {
      return None;
    }
    var first: seq<string> := [];
    if body.Scalar? && !Truthy(body.v) { first := [BodyRequired]; }
    var b := FieldsOf(body);
    var errs: seq<string> := [];
    errs := Push(errs, Blank(Get(b, "name")), NameRequired);
    errs := Push(errs, Blank(Get(b, "position")), PositionRequired);
    errs := Push(errs, BadEmail(Get(b, "email")), EmailInvalid);
    errs := Push(errs, NotNumber(Get(b, "baseSalary")), BaseSalaryNotNumber);
    errs := Push(errs, NotNumber(Get(b, "overtimeRate")), OvertimeRateNotNumber);
    errs := Push(errs, BadDate(Get(b, "joinDate"), dateParses), JoinDateInvalid);
    if body.Scalar? { NoFieldsErrors(dateParses); }
    errs := first + errs;
    return Some(errs);
  }

  // ---------------------------------------------------------------------------
  // Pagination

  datatype Window = Window(page: int, pageSize: int, skip: int)

  function Max(a: int, b: int): int { if a >= b then a else b }
  function Min(a: int, b: int): int { if a <= b then a else b }

  /** `parseInt(s, 10) || d`: NaN and 0 both give the default. */
  function ParsedOr(s: string, d: int): (r: int)
    ensures JsNumber.ParseInt10(s).Some? && JsNumber.ParseInt10(s).value != 0 ==> r == JsNumber.ParseInt10(s).value
    ensures !(JsNumber.ParseInt10(s).Some? && JsNumber.ParseInt10(s).value != 0) ==> r == d
  {
    var p := JsNumber.ParseInt10(s);
    if p.Some? && p.value != 0 then p.value else d
  }

  lemma ParsedOrNumeral(n: nat, d: int)
    requires n != 0
    ensures ParsedOr(JsNumber.NatToString(n), d) == n
  {
    JsNumber.ParseInt10OfNatToString(n, []);
    assert JsNumber.NatToString(n) + [] == JsNumber.NatToString(n);
  }

  /** The text of the page-size parameter: `pageSize`, else `limit`, else "50". */
  function SizeText(pageSizeParam: Option<string>, limitParam: Option<string>): string {
    if pageSizeParam.Some? && pageSizeParam.value != [] then pageSizeParam.value
    else if limitParam.Some? && limitParam.value != [] then limitParam.value
    else "50"
  }

  /**
   * The listing window: only a non-empty `page` parameter turns pagination on;
   * the page is at least 1, the page size is clamped to 1..500, and `skip`
   * counts the rows of the earlier pages.
   */
  function Pagination(pageParam: Option<string>, pageSizeParam: Option<string>, limitParam: Option<string>): (w: Option<Window>)
    ensures w.Some? <==> pageParam.Some? && pageParam.value != []
    ensures w.Some? ==> w.value.page >= 1 && 1 <= w.value.pageSize <= 500 && w.value.skip >= 0
    ensures w.Some? ==> w.value.skip == (w.value.page - 1) * w.value.pageSize
  {
    if pageParam.Some? && pageParam.value != [] then
      var page := Max(1, ParsedOr(pageParam.value, 1));
      var pageSize := Max(1, Min(500, ParsedOr(SizeText(pageSizeParam, limitParam), 50)));
      JsNumber.NonNegativeProduct(page - 1, pageSize);
      Some(Window(page, pageSize, (page - 1) * pageSize))
    else None
  }

  lemma ParsedOrFifty(d: int)
    ensures ParsedOr("50", d) == 50
  {
    assert JsNumber.NatToString(5) == "5";
    assert JsNumber.NatToString(50) == "50";
    ParsedOrNumeral(50, d);
  }

  /** A window for a page numeral and a page-size text whose parse is known. */
  lemma PaginationOf(p: nat, sizeText: string, size: int, pageSizeParam: Option<string>, limitParam: Option<string>)
    requires p >= 1 && SizeText(pageSizeParam, limitParam) == sizeText && ParsedOr(sizeText, 50) == size
    ensures var s := Max(1, Min(500, size));
      Pagination(Some(JsNumber.NatToString(p)), pageSizeParam, limitParam) == Some(Window(p, s, (p - 1) * s))
  {
    var t := JsNumber.NatToString(p);
    ParsedOrNumeral(p, 1);
    assert ParsedOr(t, 1) == p;
    assert t != [];
    assert Max(1, ParsedOr(t, 1)) == p;
    var s := Max(1, Min(500, ParsedOr(SizeText(pageSizeParam, limitParam), 50)));
    assert s == Max(1, Min(500, size));
  }

  /**
   * Page and size numerals within the bounds are taken as written; a size
   * given by `pageSize` wins over `limit`, and 50 is the size without either.
   */
  lemma PaginationOfNumerals(p: nat, n: nat, limit: Option<string>)
    requires p >= 1 && 1 <= n <= 500
    ensures Pagination(Some(JsNumber.NatToString(p)), Some(JsNumber.NatToString(n)), limit)
         == Some(Window(p, n, (p - 1) * n))
    ensures Pagination(Some(JsNumber.NatToString(p)), None, Some(JsNumber.NatToString(n)))
         == Some(Window(p, n, (p - 1) * n))
    ensures Pagination(Some(JsNumber.NatToString(p)), None, None) == Some(Window(p, 50, (p - 1) * 50))
  {
    var t := JsNumber.NatToString(n);
    ParsedOrNumeral(n, 50);
    PaginationOf(p, t, n, Some(t), limit);
    PaginationOf(p, t, n, None, Some(t));
    ParsedOrFifty(50);
    PaginationOf(p, "50", 50, None, None);
  }

  /** A page size over 500 is 500, and a page that does not parse as a non-zero integer is page 1. */
  lemma PaginationClamps(p: string, size: nat)
    requires p != [] && ParsedOr(p, 1) == 1 && size > 500
    ensures Pagination(Some(p), Some(JsNumber.NatToString(size)), None) == Some(Window(1, 500, 0))
    ensures Pagination(Some(p), None, None) == Some(Window(1, 50, 0))
  {
    ParsedOrNumeral(size, 50);
    ParsedOrFifty(50);
  }

  // ---------------------------------------------------------------------------
  // Stored rows and their JSON shape

  /** `v ?? undefined`. */
  function OrUndefined(v: Json): Json { OrElse(v, Undefined) }

  /** A date column: present when set; the conversion of the date to `yyyy-mm-dd` text is not modelled. */
  function DateOrUndefined(v: Json): Json { if Truthy(v) then v else Undefined }

  datatype ApiEmployee = ApiEmployee(
    id: Json, name: Json, dateOfBirth: Json, maritalStatus: Json, email: Json, phone: Json,
    address: Json, position: Json, department: Json, joinDate: Json, employmentType: Json,
    baseSalary: JsNumber.Num, overtimeRate: JsNumber.Num, payrollFrequency: Json, bankAccount: Json,
    status: Json, sssNumber: Json, philHealthNumber: Json, pagIbigNumber: Json, tin: Json,
    taxStatus: Json, isManagement: Json, religion: Json, holidaySettings: Json, allowances: Json,
    deductions: Json, createdAt: Json, updatedAt: Json)

  /** `mapDbEmployee`. */
  function MapDbEmployee(row: Option<Object>): Option<ApiEmployee> {
    match row
    case None => None
    case Some(e) => Some(ApiEmployee(
      Get(e, "id"), Get(e, "name"), DateOrUndefined(Get(e, "date_of_birth")),
      OrUndefined(Get(e, "marital_status")), OrUndefined(Get(e, "email")), OrUndefined(Get(e, "phone")),
      OrUndefined(Get(e, "address")), OrUndefined(Get(e, "position")), OrElse(Get(e, "department"), Str("")),
      DateOrUndefined(Get(e, "join_date")), OrUndefined(Get(e, "employment_type")),
      ToNumber(OrElse(Get(e, "base_salary"), Num(0.0))), ToNumber(OrElse(Get(e, "overtime_rate"), Num(0.0))),
      OrUndefined(Get(e, "payroll_frequency")), OrUndefined(Get(e, "bank_account")),
      OrElse(Get(e, "status"), Str("active")), OrUndefined(Get(e, "sss_number")),
      OrUndefined(Get(e, "philhealth_number")), OrUndefined(Get(e, "pagibig_number")),
      OrUndefined(Get(e, "tin")), OrUndefined(Get(e, "tax_status")),
      OrElse(Get(e, "is_management"), Bool(false)), OrUndefined(Get(e, "religion")),
      OrUndefined(Get(e, "holiday_settings")), OrUndefined(Get(e, "allowances")),
      OrUndefined(Get(e, "deductions")), Get(e, "created_at"), Get(e, "updated_at")))
  }

  /** `out` is `col ?? undefined`: the stored value when set, `undefined` when null or missing. */
  predicate SetOrUndefined(out: Json, col: Json) {
    (!Nullish(col) ==> out == col) && (Nullish(col) ==> out == Undefined)
  }

  /** `out` is the date column when it is truthy, `undefined` otherwise. */
  predicate DateWhenTruthy(out: Json, col: Json) {
    (Truthy(col) ==> out == col) && (!Truthy(col) ==> out == Undefined)
  }

  /**
   * The mapping's defaults: a missing or null department reads as "", a
   * missing base salary or overtime rate as 0, status as "active" and the
   * management flag as false; every set column is passed through, and every
   * other optional column reads as `undefined` when null or missing.
   */
  lemma MapDbEmployeeDefaults(e: Object)
    ensures MapDbEmployee(None) == None
    ensures var v := MapDbEmployee(Some(e)).value;
      && v.id == Get(e, "id") && v.name == Get(e, "name")
      && v.createdAt == Get(e, "created_at") && v.updatedAt == Get(e, "updated_at")
      && (Nullish(Get(e, "department")) ==> v.department == Str(""))
      && (!Nullish(Get(e, "department")) ==> v.department == Get(e, "department"))
      && (Nullish(Get(e, "base_salary")) ==> v.baseSalary == JsNumber.Finite(0.0))
      && (!Nullish(Get(e, "base_salary")) ==> v.baseSalary == ToNumber(Get(e, "base_salary")))
      && (Nullish(Get(e, "overtime_rate")) ==> v.overtimeRate == JsNumber.Finite(0.0))
      && (!Nullish(Get(e, "overtime_rate")) ==> v.overtimeRate == ToNumber(Get(e, "overtime_rate")))
      && (Nullish(Get(e, "status")) ==> v.status == Str("active"))
      && (!Nullish(Get(e, "status")) ==> v.status == Get(e, "status"))
      && (Nullish(Get(e, "is_management")) ==> v.isManagement == Bool(false))
      && (!Nullish(Get(e, "is_management")) ==> v.isManagement == Get(e, "is_management"))
      && DateWhenTruthy(v.dateOfBirth, Get(e, "date_of_birth"))
      && DateWhenTruthy(v.joinDate, Get(e, "join_date"))
      && SetOrUndefined(v.maritalStatus, Get(e, "marital_status"))
      && SetOrUndefined(v.email, Get(e, "email"))
      && SetOrUndefined(v.phone, Get(e, "phone"))
      && SetOrUndefined(v.address, Get(e, "address"))
      && SetOrUndefined(v.position, Get(e, "position"))
      && SetOrUndefined(v.employmentType, Get(e, "employment_type"))
      && SetOrUndefined(v.payrollFrequency, Get(e, "payroll_frequency"))
      && SetOrUndefined(v.bankAccount, Get(e, "bank_account"))
      && SetOrUndefined(v.sssNumber, Get(e, "sss_number"))
      && SetOrUndefined(v.philHealthNumber, Get(e, "philhealth_number"))
      && SetOrUndefined(v.pagIbigNumber, Get(e, "pagibig_number"))
      && SetOrUndefined(v.tin, Get(e, "tin"))
      && SetOrUndefined(v.taxStatus, Get(e, "tax_status"))
      && SetOrUndefined(v.religion, Get(e, "religion"))
      && SetOrUndefined(v.holidaySettings, Get(e, "holiday_settings"))
      && SetOrUndefined(v.allowances, Get(e, "allowances"))
      && SetOrUndefined(v.deductions, Get(e, "deductions"))
  {
  }

  // ---------------------------------------------------------------------------
  // Create and update payloads

  /**
   * How a column is filled from the body: passed as it is (`name`), as a date
   * when truthy, or with `??` (to null on create, with a default on create
   * when one is given; to undefined on update).
   */
  datatype Fill = AsIs | DateWhenSet | Nullable | Defaulted(default: Json)

  /** The columns of the create and update payloads, as (column, body key, fill), in payload order. */
  const Columns: seq<(string, string, Fill)> := [
    ("name", "name", AsIs), ("date_of_birth", "dateOfBirth", DateWhenSet),
    ("marital_status", "maritalStatus", Nullable), ("email", "email", Nullable),
    ("phone", "phone", Nullable), ("address", "address", Nullable),
    ("position", "position", Nullable), ("department", "department", Nullable),
    ("join_date", "joinDate", DateWhenSet), ("employment_type", "employmentType", Nullable),
    ("base_salary", "baseSalary", Defaulted(Num(0.0))), ("overtime_rate", "overtimeRate", Defaulted(Num(0.0))),
    ("payroll_frequency", "payrollFrequency", Nullable), ("bank_account", "bankAccount", Nullable),
    ("status", "status", Defaulted(Str("active"))), ("sss_number", "sssNumber", Nullable),
    ("philhealth_number", "philHealthNumber", Nullable), ("pagibig_number", "pagIbigNumber", Nullable),
    ("tin", "tin", Nullable), ("tax_status", "taxStatus", Nullable),
    ("is_management", "isManagement", Defaulted(Bool(false))), ("religion", "religion", Nullable),
    ("holiday_settings", "holidaySettings", Nullable), ("allowances", "allowances", Nullable),
    ("deductions", "deductions", Nullable)]

  type Fields = seq<(string, Json)>

  /** The value a create writes to a column. */
  function CreateValue(b: Object, key: string, fill: Fill): Json {
    var v := Get(b, key);
    match fill
    case AsIs => v
    case DateWhenSet => if Truthy(v) then v else Null
    case Nullable => OrElse(v, Null)
    case Defaulted(d) => OrElse(v, d)
  }

  /** The value an update writes to a column. */
  function UpdateValue(b: Object, key: string, fill: Fill): Json {
    var v := Get(b, key);
    match fill
    case AsIs => v
    case DateWhenSet => if Truthy(v) then v else Undefined
    case Nullable => OrElse(v, Undefined)
    case Defaulted(_) => OrElse(v, Undefined)
  }

  /** The POST `data` before undefined keys are removed. */
  function PostData(b: Object): (f: Fields)
    ensures |f| == |Columns|
    ensures forall k :: 0 <= k < |f| ==> f[k] == (Columns[k].0, CreateValue(b, Columns[k].1, Columns[k].2))
  {
    seq(|Columns|, k requires 0 <= k < |Columns| => (Columns[k].0, CreateValue(b, Columns[k].1, Columns[k].2)))
  }

  /** The PUT `data` before undefined keys are removed: the columns, then `updated_at`. */
  function PutData(b: Object, now: Json): (f: Fields)
    ensures |f| == |Columns| + 1 && f[|Columns|] == ("updated_at", now)
    ensures forall k :: 0 <= k < |Columns| ==> f[k] == (Columns[k].0, UpdateValue(b, Columns[k].1, Columns[k].2))
  {
    seq(|Columns|, k requires 0 <= k < |Columns| => (Columns[k].0, UpdateValue(b, Columns[k].1, Columns[k].2)))
    + [("updated_at", now)]
  }

  /** The fields whose value is not `undefined`, in order. */
  function Defined(f: Fields): (r: Fields)
    ensures |r| <= |f|
    ensures forall p :: p in r <==> p in f && p.1 != Undefined
  {
    if f == [] then []
    else
      var init := Defined(f[..|f| - 1]);
      assert f == f[..|f| - 1] + [f[|f| - 1]];
      if f[|f| - 1].1 != Undefined then init + [f[|f| - 1]] else init
  }

  lemma {:induction false} DefinedNoOp(f: Fields)
    requires forall k :: 0 <= k < |f| ==> f[k].1 != Undefined
    ensures Defined(f) == f
  {
    if f != [] {
      DefinedNoOp(f[..|f| - 1]);
      assert f == f[..|f| - 1] + [f[|f| - 1]];
    }
  }

  /** `Object.keys(data).forEach(k => data[k] === undefined && delete data[k])`. */
  method RemoveUndefined(data: Fields) returns (kept: Fields)
    ensures kept == Defined(data)
  {
    kept := [];
    var i := 0;
    while i < |data|
      invariant 0 <= i <= |data|
      invariant kept == Defined(data[..i])
    {
      assert data[..i + 1][..i] == data[..i];
      if data[i].1 != Undefined {
        kept := kept + [data[i]];
      }
      i := i + 1;
    }
    assert data[..|data|] == data;
  }

  lemma OnlyNameAsIs(k: nat)
    requires k < |Columns| && Columns[k].2.AsIs?
    ensures Columns[k].1 == "name"
  {
  }

  /** A create writes null or a default in place of a missing value, so only a missing `name` can be undefined. */
  lemma CreateValueDefined(b: Object, k: nat)
    requires k < |Columns|
    ensures CreateValue(b, Columns[k].1, Columns[k].2) == Undefined <==> Columns[k].2.AsIs? && Get(b, "name") == Undefined
  {
    if Columns[k].2.AsIs? { OnlyNameAsIs(k); }
  }

  /** In a validated POST nothing is undefined, so removing undefined keys keeps every field. */
  lemma PostDataComplete(b: Object, dateParses: Json -> bool)
    requires ValidationErrors(b, dateParses) == []
    ensures Defined(PostData(b)) == PostData(b)
  {
    ValidationErrorsRule(b, dateParses);
    var f := PostData(b);
    forall k | 0 <= k < |f| ensures f[k].1 != Undefined {
      CreateValueDefined(b, k);
    }
    DefinedNoOp(f);
  }

  /**
   * A PUT writes a column exactly when the body gives it a value other than
   * null or undefined (a date column: a truthy value); `name` is written
   * whenever the key is present, even as null; `updated_at` is always written.
   */
  lemma PutDataKeeps(b: Object, now: Json, k: nat)
    requires k < |Columns| && now != Undefined
    ensures var kept := Defined(PutData(b, now));
      && ("updated_at", now) in kept
      && (PutData(b, now)[k] in kept <==>
           match Columns[k].2
           case AsIs => Get(b, Columns[k].1) != Undefined
           case DateWhenSet => Truthy(Get(b, Columns[k].1))
           case _ => !Nullish(Get(b, Columns[k].1)))
  {
    var f := PutData(b, now);
    assert f[|Columns|] in f;
    assert f[k] in f;
  }

  /**
   * The row an update writes: the stored row with each field set in order,
   * so a column holds the value of its last field.
   */
  function Apply(row: Object, f: Fields): (r: Object)
    ensures r.Keys == row.Keys + set p | p in f :: p.0
    ensures forall c :: c in row && (forall p :: p in f ==> p.0 != c) ==> r[c] == row[c]
    ensures f != [] ==> r[f[|f| - 1].0] == f[|f| - 1].1
    decreases |f|
  {
    if f == [] then row
    else
      var init := Apply(row, f[..|f| - 1]);
      assert f == f[..|f| - 1] + [f[|f| - 1]];
      init[f[|f| - 1].0 := f[|f| - 1].1]
  }

  /** Every field that no later field overrides is the value its column ends with. */
  lemma {:induction false} ApplyLastWrite(row: Object, f: Fields, i: nat)
    requires i < |f| && forall j :: i < j < |f| ==> f[j].0 != f[i].0
    ensures f[i].0 in Apply(row, f) && Apply(row, f)[f[i].0] == f[i].1
    decreases |f|
  {
    if i < |f| - 1 {
      var g := f[..|f| - 1];
      assert g[i] == f[i];
      forall j | i < j < |g| ensures g[j].0 != g[i].0 {
        assert g[j] == f[j];
      }
      ApplyLastWrite(row, g, i);
    }
  }

  // ---------------------------------------------------------------------------
  // The endpoint over the table

  datatype Payload = Employee(value: ApiEmployee) | DeletedId(id: string) | Error(message: string)
  datatype Response = Response(code: int, payload: Payload)

  class EmployeeTable {
    var rows: map<string, Object>

    constructor ()
      ensures rows == map[]
    {
      rows := map[];
    }

    /** GET with an `id` parameter: the mapped row, or 404. */
    function GetById(id: string): (r: Response)
      reads this
      ensures id in rows <==> r.code == 200
      ensures id !in rows ==> r == Response(404, Error("Not found"))
      ensures id in rows ==> r.payload == Employee(MapDbEmployee(Some(rows[id])).value)
    {
      if id in rows then Response(200, Employee(MapDbEmployee(Some(rows[id])).value))
      else Response(404, Error("Not found"))
    }

    /**
     * POST: a null body fails (500); validation errors give 400 with the
     * messages joined by "; " (any other scalar body always has some);
     * a write the database refuses fails (500); otherwise the row is created
     * under the new id (201). `accepts` is the database's verdict on the
     * fields it is asked to write.
     */
    method Post(body: Body, dateParses: Json -> bool, accepts: Fields -> bool, newId: string) returns (r: Response)
      modifies this
      ensures body.Scalar? && Nullish(body.v) ==> r == Response(500, Error("internal")) && rows == old(rows)
      ensures body.Scalar? && !Nullish(body.v) ==>
        var errs := (if Truthy(body.v) then [] else [BodyRequired]) + [NameRequired, PositionRequired];
        r == Response(400, Error(Join(errs, "; "))) && rows == old(rows)
      ensures body.ObjectBody? && ValidationErrors(body.fields, dateParses) != [] ==>
        r == Response(400, Error(Join(ValidationErrors(body.fields, dateParses), "; "))) && rows == old(rows)
      ensures body.ObjectBody? && ValidationErrors(body.fields, dateParses) == [] && !accepts(PostData(body.fields)) ==>
        r == Response(500, Error("internal")) && rows == old(rows)
      ensures body.ObjectBody? && ValidationErrors(body.fields, dateParses) == [] && newId in old(rows) ==>
        r == Response(500, Error("internal")) && rows == old(rows)
      ensures body.ObjectBody? && ValidationErrors(body.fields, dateParses) == [] && accepts(PostData(body.fields))
              && newId !in old(rows) ==>
        var row := Apply(map["id" := Str(newId)], PostData(body.fields));
        && rows == old(rows)[newId := row]
        && r == Response(201, Employee(MapDbEmployee(Some(row)).value))
    {
      var errors := ValidateEmployeeInput(body, dateParses);
      if errors.None? {
        return Response(500, Error("internal"));
      }
      if |errors.value| > 0 {
        return Response(400, Error(Join(errors.value, "; ")));
      }
      var data := RemoveUndefined(PostData(body.fields));
      PostDataComplete(body.fields, dateParses);
      if !accepts(data) || newId in rows {
        return Response(500, Error("internal"));
      }
      var created := Apply(map["id" := Str(newId)], data);
      rows := rows[newId := created];
      r := Response(201, Employee(MapDbEmployee(Some(created)).value));
    }

    /**
     * PUT: 400 without an id (a scalar body has none); an id that is not a
     * stored key, or fields the database refuses, fail (500); otherwise the
     * defined fields are written over the stored row (200).
     */
    method Put(body: Body, accepts: Fields -> bool, now: Json) returns (r: Response)
      modifies this
      ensures NoId(body) ==> r == Response(400, Error("id is required for update")) && rows == old(rows)
      ensures !NoId(body) && !(body.fields["id"].Str? && body.fields["id"].s in old(rows)) ==>
        r == Response(500, Error("internal")) && rows == old(rows)
      ensures !NoId(body) && !accepts(Defined(PutData(body.fields, now))) ==>
        r == Response(500, Error("internal")) && rows == old(rows)
      ensures !NoId(body) && body.fields["id"].Str? && body.fields["id"].s in old(rows)
              && accepts(Defined(PutData(body.fields, now))) ==>
        var id := body.fields["id"].s;
        var updated := Apply(old(rows)[id], Defined(PutData(body.fields, now)));
        && rows == old(rows)[id := updated]
        && r == Response(200, Employee(MapDbEmployee(Some(updated)).value))
    {
      if NoId(body) {
        return Response(400, Error("id is required for update"));
      }
      var b := body.fields;
      var data := RemoveUndefined(PutData(b, now));
      if !b["id"].Str? || b["id"].s !in rows || !accepts(data) {
        return Response(500, Error("internal"));
      }
      var id := b["id"].s;
      var updated := Apply(rows[id], data);
      rows := rows[id := updated];
      r := Response(200, Employee(MapDbEmployee(Some(updated)).value));
    }

    /** DELETE: 400 without an id; an unknown id fails in the database (500); otherwise the row is removed. */
    method Delete(id: Option<string>) returns (r: Response)
      modifies this
      ensures id.None? || id.value == [] ==> r == Response(400, Error("id is required")) && rows == old(rows)
      ensures id.Some? && id.value != [] && id.value !in old(rows) ==> r == Response(500, Error("internal")) && rows == old(rows)
      ensures id.Some? && id.value != [] && id.value in old(rows) ==>
        r == Response(200, DeletedId(id.value)) && rows == old(rows) - {id.value}
    {
      if id.None? || id.value == [] {
        return Response(400, Error("id is required"));
      }
      if id.value !in rows {
        return Response(500, Error("internal"));
      }
      rows := rows - {id.value};
      return Response(200, DeletedId(id.value));
    }
  }
}
