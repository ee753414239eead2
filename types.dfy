/**
 * The records the payroll core reads and produces: the employee profile,
 * a holiday definition and the pay slip.
 */
module Types {
  import opened Wrappers

  /** Fixed monthly allowances; every field may be absent. */
  datatype Allowances = Allowances(
    transport: Option<real>,
    meal: Option<real>,
    bonus: Option<real>,
    overtime: Option<real>,
    tips: Option<real>,
    holidayAllowance: Option<real>)

  /** Voluntary monthly deductions; every field may be absent. */
  datatype Deductions = Deductions(
    tax: Option<real>,
    insurance: Option<real>,
    other: Option<real>,
    cooperativeFund: Option<real>,
    healthInsurance: Option<real>,
    loanDeduction: Option<real>,
    ppn: Option<real>)

  /** The compensation profile of one employee (the fields the payroll core reads). */
  datatype Employee = Employee(
    id: string,
    name: string,
    position: string,
    department: string,
    baseSalary: real,
    status: string,
    sssNumber: Option<string>,
    philHealthNumber: Option<string>,
    pagIbigNumber: Option<string>,
    overtimeRate: Option<real>,
    religion: string,
    isManagement: bool,
    allowances: Allowances,
    deductions: Deductions)

  /** One holiday definition. The holiday type is kept as text. */
  datatype Holiday = Holiday(
    id: string,
    name: string,
    date: string,
    holidayType: string,
    description: string,
    allowanceMultiplier: real,
    isActive: bool,
    eligibleReligions: seq<string>,
    localName: Option<string>,
    englishName: Option<string>)

  datatype AllowanceBreakdown = AllowanceBreakdown(
    transport: real,
    meal: real,
    bonus: real,
    overtime: real,
    tips: real,
    holidayAllowance: real,
    total: real)

  datatype DeductionBreakdown = DeductionBreakdown(
    tax: real,
    insurance: real,
    other: real,
    cooperativeFund: real,
    healthInsurance: real,
    loanDeduction: real,
    sss: real,
    philHealth: real,
    pagIbig: real,
    total: real)

  /** The pay slip of one employee for one period. `generatedAt` is an opaque timestamp. */
  datatype PaySlip = PaySlip(
    id: string,
    employeeId: string,
    employee: Employee,
    period: string,
    baseSalary: real,
    proratedBase: real,
    allowances: AllowanceBreakdown,
    deductions: DeductionBreakdown,
    grossSalary: real,
    netSalary: real,
    generatedAt: string,
    overtimeHours: real,
    holidayType: Option<string>)
}
