/**
 * The payroll calculator of the payroll page: rounding to cents, the flat-rate-by-bracket
 * federal income tax estimate, input validation and the gross-to-net computation.
 * JavaScript numbers are modelled as exact reals.
 */
module Payroll {
  import opened JsString

  datatype Option<T> = None | Some(value: T)

  datatype Result<T, E> = Ok(value: T) | Err(error: E)

  // ---------------------------------------------------------------------------
  // Math.min, Math.max and round2
  // ---------------------------------------------------------------------------

  /** `Math.min`: the smaller of the two arguments. */
  function Min(a: real, b: real): (r: real)
    ensures r <= a && r <= b && (r == a || r == b)
  {
    if a <= b then a else b
  }

  /** `Math.max`: the larger of the two arguments. */
  function Max(a: real, b: real): (r: real)
    ensures r >= a && r >= b && (r == a || r == b)
  {
    if a >= b then a else b
  }

  /** A value with at most two decimal places (a whole number of cents). */
  predicate IsCents(x: real) {
    (x * 100.0).Floor as real == x * 100.0
  }

  /**
   * `Math.round(n * 100) / 100`. Math.round takes the nearest integer and breaks
   * ties toward +infinity, which is `Floor(y + 1/2)`.
   */
  function Round2(n: real): (r: real)
    ensures IsCents(r)
    ensures n - 0.005 < r <= n + 0.005
  {
    (n * 100.0 + 0.5).Floor as real / 100.0
  }

  /** The contract of Round2 pins the result down: it is the only whole-cents value within half a cent below or at half a cent above. */
  lemma Round2Unique(n: real, c: real)
    requires IsCents(c) && n - 0.005 < c <= n + 0.005
    ensures c == Round2(n)
  {
    var k := (c * 100.0).Floor;
    var f := (Round2(n) * 100.0).Floor;
    assert k as real == c * 100.0;
    assert f as real == Round2(n) * 100.0;
    assert -1 < k - f < 1;
  }

  /** A half cent rounds up (toward +infinity). */
  lemma Round2HalfUp(n: real)
    requires IsCents(n + 0.005)
    ensures Round2(n) == n + 0.005
  {
    Round2Unique(n, n + 0.005);
  }

  /** Values already in whole cents are left alone; in particular rounding is idempotent. */
  lemma Round2OfCents(x: real)
    requires IsCents(x)
    ensures Round2(x) == x
  {
    Round2Unique(x, x);
  }

  lemma Round2Idempotent(n: real)
    ensures Round2(Round2(n)) == Round2(n)
  {
    Round2OfCents(Round2(n));
  }

  lemma Round2Monotone(a: real, b: real)
    requires a <= b
    ensures Round2(a) <= Round2(b)
  {
    assert (a * 100.0 + 0.5).Floor <= (b * 100.0 + 0.5).Floor;
  }

  lemma Round2Nonnegative(n: real)
    requires n >= 0.0
    ensures Round2(n) >= 0.0
  {
    Round2Monotone(0.0, n);
    Round2OfCents(0.0);
  }

  // ---------------------------------------------------------------------------
  // estimateFederalIncomeTax
  // ---------------------------------------------------------------------------

  /** One row of the tax table: "up to `limit` (inclusive) at `rate`". */
  datatype Bracket = Bracket(limit: real, rate: real)

  /** The bracket rows in ascending order of their limits. */
  const BRACKETS: seq<Bracket> :=
    [Bracket(250.0, 0.0), Bracket(750.0, 0.10), Bracket(1500.0, 0.12), Bracket(3000.0, 0.22)]

  /** The rate applied to amounts above the last bracket limit. */
  const TOP_RATE: real := 0.24

  /**
   * Reference lookup: scan the rows in ascending order and take the rate of the
   * first row whose limit `w` does not exceed; past the last row, the top rate.
   */
  function TableRate(table: seq<Bracket>, w: real): real {
    if table == [] then TOP_RATE
    else if w <= table[0].limit then table[0].rate
    else TableRate(table[1..], w)
  }

  /**
   * `estimateFederalIncomeTax`: clamps the wages at zero and applies ONE rate,
   * chosen by bracket, to the whole amount (flat rate by bracket, not marginal).
   */
  function EstimateFederalIncomeTax(taxableWages: real): (tax: real)
    ensures 0.0 <= tax <= TOP_RATE * Max(0.0, taxableWages)
    ensures taxableWages <= 250.0 ==> tax == 0.0
  {
    var w := Max(0.0, taxableWages);
    if w <= 250.0 then 0.0
    else if w <= 750.0 then w * 0.10
    else if w <= 1500.0 then w * 0.12
    else if w <= 3000.0 then w * 0.22
    else w * 0.24
  }

  /** The if-chain agrees with the table scan on every input. */
  lemma {:induction false} TaxFollowsTable(taxableWages: real)
    ensures var w := Max(0.0, taxableWages);
      EstimateFederalIncomeTax(taxableWages) == w * TableRate(BRACKETS, w)
  {
    var w := Max(0.0, taxableWages);
    var t1, t2, t3 := BRACKETS[1..], BRACKETS[2..], BRACKETS[3..];
    assert t1[1..] == t2 && t2[1..] == t3 && t3[1..] == [];
    if w > 250.0 {
      assert TableRate(BRACKETS, w) == TableRate(t1, w);
      if w > 750.0 {
        assert TableRate(t1, w) == TableRate(t2, w);
        if w > 1500.0 {
          assert TableRate(t2, w) == TableRate(t3, w);
          if w > 3000.0 {
            assert TableRate(t3, w) == TableRate([], w) == TOP_RATE;
          }
        }
      }
    }
  }

  /** Bracket limits are inclusive: each limit is taxed at its own row's rate, and a cent above it at the next row's rate. */
  lemma TaxAtBracketLimits()
    ensures EstimateFederalIncomeTax(250.0) == 0.0
    ensures EstimateFederalIncomeTax(250.01) == 250.01 * 0.10
    ensures EstimateFederalIncomeTax(750.0) == 750.0 * 0.10
    ensures EstimateFederalIncomeTax(750.01) == 750.01 * 0.12
    ensures EstimateFederalIncomeTax(1500.0) == 1500.0 * 0.12
    ensures EstimateFederalIncomeTax(1500.01) == 1500.01 * 0.22
    ensures EstimateFederalIncomeTax(3000.0) == 3000.0 * 0.22
    ensures EstimateFederalIncomeTax(3000.01) == 3000.01 * 0.24
  {
  }

  /** Negative taxable wages are treated as zero. */
  lemma TaxClampsNegative(taxableWages: real)
    requires taxableWages < 0.0
    ensures EstimateFederalIncomeTax(taxableWages) == EstimateFederalIncomeTax(0.0) == 0.0
  {
  }

  /** Because the rates increase from row to row, the tax never decreases as wages grow. */
  lemma TaxMonotone(a: real, b: real)
    requires a <= b
    ensures EstimateFederalIncomeTax(a) <= EstimateFederalIncomeTax(b)
  {
  }

  // ---------------------------------------------------------------------------
  // The page's inputs, its result record and validation
  // ---------------------------------------------------------------------------

  /** `"" | "single" | "married"`; the empty string is "not selected". */
  datatype MaritalStatus = StatusUnset | Single | Married

  /** `"" | "weekly" | "biweekly"`; the empty string is "not selected". */
  datatype PayPeriod = PeriodUnset | Weekly | Biweekly

  /** The six form inputs that onCalculate reads. */
  datatype PayrollInput = PayrollInput(
    employeeName: string,
    maritalStatus: MaritalStatus,
    dependents: real,
    payPeriod: PayPeriod,
    hourlyRate: real,
    hoursWorked: real)

  /** The eleven fields that onCalculate stores as its result. */
  datatype PayrollResult = PayrollResult(
    regularHours: real,
    overtimeHours: real,
    regularPay: real,
    overtimePay: real,
    grossPay: real,
    socialSecurity: real,
    medicare: real,
    federalIncomeTax: real,
    totalTaxes: real,
    netPay: real,
    taxableWagesUsed: real)

  /** One variant per validation check, in no particular order (Rank gives the order). */
  datatype ValidationError =
    | MissingName
    | MissingMaritalStatus
    | MissingPayPeriod
    | InvalidHourlyRate
    | NegativeHours
    | NegativeDependents

  /** The position of each check in the order onCalculate runs them. */
  function Rank(e: ValidationError): nat {
    match e
    case MissingName => 0
    case MissingMaritalStatus => 1
    case MissingPayPeriod => 2
    case InvalidHourlyRate => 3
    case NegativeHours => 4
    case NegativeDependents => 5
  }

  /** The message onCalculate records for each failed check. */
  function Message(e: ValidationError): (m: string)
    ensures m != ""
  {
    match e
    case MissingName => "Please enter an employee name."
    case MissingMaritalStatus => "Please select a marital status."
    case MissingPayPeriod => "Please select a pay period."
    case InvalidHourlyRate => "Hourly rate must be greater than 0."
    case NegativeHours => "Hours worked cannot be negative."
    case NegativeDependents => "Dependents cannot be negative."
  }

  /** Distinct checks record distinct messages, so the message identifies the failed check. */
  lemma MessagesDistinct(e1: ValidationError, e2: ValidationError)
    requires e1 != e2
    ensures Message(e1) != Message(e2)
  {
  }

  /** Whether the input fails check `e`, taken on its own. */
  predicate Fails(input: PayrollInput, e: ValidationError)
    ensures e == MissingName ==>
      (Fails(input, e) <==> forall k :: 0 <= k < |input.employeeName| ==> IsTrimmable(input.employeeName[k]))
  {
    match e
    case MissingName => Trim(input.employeeName) == []
    case MissingMaritalStatus => input.maritalStatus == StatusUnset
    case MissingPayPeriod => input.payPeriod == PeriodUnset
    case InvalidHourlyRate => input.hourlyRate <= 0.0
    case NegativeHours => input.hoursWorked < 0.0
    case NegativeDependents => input.dependents < 0.0
  }

  /**
   * The validation chain of onCalculate: the first failing check in order, or
   * None when every check passes.
   */
  function Validate(input: PayrollInput): (r: Option<ValidationError>)
    ensures r == None ==> forall e :: !Fails(input, e)
    ensures r.Some? ==> Fails(input, r.value) && forall e :: Rank(e) < Rank(r.value) ==> !Fails(input, e)
  {
    if Trim(input.employeeName) == [] then Some(MissingName)
    else if input.maritalStatus == StatusUnset then Some(MissingMaritalStatus)
    else if input.payPeriod == PeriodUnset then Some(MissingPayPeriod)
    else if input.hourlyRate <= 0.0 then Some(InvalidHourlyRate)
    else if input.hoursWorked < 0.0 then Some(NegativeHours)
    else if input.dependents < 0.0 then Some(NegativeDependents)
    else None
  }

  /** The inputs that pass every check. */
  predicate IsValid(input: PayrollInput) {
    Validate(input) == None
  }

  lemma ValidIff(input: PayrollInput)
    ensures IsValid(input) <==>
      Trim(input.employeeName) != [] && input.maritalStatus != StatusUnset && input.payPeriod != PeriodUnset
      && input.hourlyRate > 0.0 && input.hoursWorked >= 0.0 && input.dependents >= 0.0
  {
    if !IsValid(input) {
      var e := Validate(input).value;
      assert Fails(input, e);
    } else {
      assert !Fails(input, MissingName);
      assert !Fails(input, NegativeDependents);
    }
  }

  // ---------------------------------------------------------------------------
  // The computation of onCalculate
  // ---------------------------------------------------------------------------

  const REGULAR_HOURS_LIMIT: real := 40.0
  const OVERTIME_MULTIPLIER: real := 1.5
  const SOCIAL_SECURITY_RATE: real := 0.062
  const MEDICARE_RATE: real := 0.0145
  const DEPENDENT_ALLOWANCE: real := 50.0

  /**
   * The straight-line bindings of onCalculate, at full precision. Marital status and
   * pay period are not parameters: the computation never reads them.
   */
  function ExactPay(hourlyRate: real, hoursWorked: real, dependents: real): (p: PayrollResult)
    ensures p.regularHours + p.overtimeHours == hoursWorked
    ensures p.regularHours <= REGULAR_HOURS_LIMIT && p.overtimeHours >= 0.0
    ensures p.taxableWagesUsed >= 0.0 && p.taxableWagesUsed >= p.grossPay - dependents * DEPENDENT_ALLOWANCE
    ensures p.netPay == p.grossPay - (p.socialSecurity + p.medicare + p.federalIncomeTax)
  {
    var regularHours := Min(REGULAR_HOURS_LIMIT, hoursWorked);
    var overtimeHours := Max(0.0, hoursWorked - REGULAR_HOURS_LIMIT);
    var regularPay := regularHours * hourlyRate;
    var overtimePay := overtimeHours * hourlyRate * OVERTIME_MULTIPLIER;
    var grossPay := regularPay + overtimePay;
    var socialSecurity := grossPay * SOCIAL_SECURITY_RATE;
    var medicare := grossPay * MEDICARE_RATE;
    var dependentAdjustment := dependents * DEPENDENT_ALLOWANCE;
    var taxableWagesUsed := Max(0.0, grossPay - dependentAdjustment);
    var federalIncomeTax := EstimateFederalIncomeTax(taxableWagesUsed);
    var totalTaxes := socialSecurity + medicare + federalIncomeTax;
    var netPay := grossPay - totalTaxes;
    PayrollResult(regularHours, overtimeHours, regularPay, overtimePay, grossPay,
                  socialSecurity, medicare, federalIncomeTax, totalTaxes, netPay, taxableWagesUsed)
  }

  /** Each of the eleven fields rounded to cents, once. */
  function RoundAll(p: PayrollResult): (r: PayrollResult)
    ensures AllCents(r)
  {
    PayrollResult(
      Round2(p.regularHours), Round2(p.overtimeHours), Round2(p.regularPay), Round2(p.overtimePay),
      Round2(p.grossPay), Round2(p.socialSecurity), Round2(p.medicare), Round2(p.federalIncomeTax),
      Round2(p.totalTaxes), Round2(p.netPay), Round2(p.taxableWagesUsed))
  }

  /** onCalculate as a value: either the first failed check, or the rounded pay stub. */
  function Compute(input: PayrollInput): (r: Result<PayrollResult, ValidationError>)
    ensures r.Err? <==> !IsValid(input)
    ensures r.Err? ==> Fails(input, r.error) && forall e :: Rank(e) < Rank(r.error) ==> !Fails(input, e)
    ensures r.Ok? ==> AllCents(r.value)
  {
    match Validate(input)
    case Some(e) => Err(e)
    case None => Ok(RoundAll(ExactPay(input.hourlyRate, input.hoursWorked, input.dependents)))
  }

  /** Every field of the stub, in whole cents. */
  predicate AllCents(p: PayrollResult) {
    IsCents(p.regularHours) && IsCents(p.overtimeHours) && IsCents(p.regularPay)
    && IsCents(p.overtimePay) && IsCents(p.grossPay) && IsCents(p.socialSecurity)
    && IsCents(p.medicare) && IsCents(p.federalIncomeTax) && IsCents(p.totalTaxes)
    && IsCents(p.netPay) && IsCents(p.taxableWagesUsed)
  }

  /** Every field of the stub, at least zero. */
  predicate AllNonnegative(p: PayrollResult) {
    p.regularHours >= 0.0 && p.overtimeHours >= 0.0 && p.regularPay >= 0.0
    && p.overtimePay >= 0.0 && p.grossPay >= 0.0 && p.socialSecurity >= 0.0
    && p.medicare >= 0.0 && p.federalIncomeTax >= 0.0 && p.totalTaxes >= 0.0
    && p.netPay >= 0.0 && p.taxableWagesUsed >= 0.0
  }

  // ---------------------------------------------------------------------------
  // Properties of the computation
  // ---------------------------------------------------------------------------

  /** The regular/overtime split at 40 hours. */
  lemma HoursSplit(hourlyRate: real, hoursWorked: real, dependents: real)
    requires hoursWorked >= 0.0
    ensures var p := ExactPay(hourlyRate, hoursWorked, dependents);
      p.regularHours + p.overtimeHours == hoursWorked
      && 0.0 <= p.regularHours <= REGULAR_HOURS_LIMIT && p.overtimeHours >= 0.0
      && (hoursWorked <= 40.0 ==> p.overtimeHours == 0.0 && p.regularHours == hoursWorked)
      && (hoursWorked > 40.0 ==> p.regularHours == 40.0 && p.overtimeHours == hoursWorked - 40.0)
  {
  }

  /** Regular pay at the hourly rate, overtime at one and a half times it; gross is their sum and never negative. */
  lemma GrossPay(hourlyRate: real, hoursWorked: real, dependents: real)
    requires hourlyRate > 0.0 && hoursWorked >= 0.0
    ensures var p := ExactPay(hourlyRate, hoursWorked, dependents);
      p.regularPay == p.regularHours * hourlyRate
      && p.overtimePay == p.overtimeHours * hourlyRate * 1.5
      && p.grossPay == p.regularPay + p.overtimePay
      && p.regularPay >= 0.0 && p.overtimePay >= 0.0 && p.grossPay >= 0.0
      && (hoursWorked <= 40.0 ==> p.grossPay == hoursWorked * hourlyRate)
      && (hoursWorked > 40.0 ==> p.grossPay == 40.0 * hourlyRate + (hoursWorked - 40.0) * hourlyRate * 1.5)
  {
    var p := ExactPay(hourlyRate, hoursWorked, dependents);
    assert p.regularHours >= 0.0 && p.overtimeHours >= 0.0;
    MulNonnegative(p.regularHours, hourlyRate);
    MulNonnegative(p.overtimeHours * hourlyRate, 1.5);
    MulNonnegative(p.overtimeHours, hourlyRate);
  }

  lemma MulNonnegative(a: real, b: real)
    requires a >= 0.0 && b >= 0.0
    ensures a * b >= 0.0
  {
  }

  /** The dependent allowance lowers the tax base by 50 each, never below zero and never above gross. */
  lemma TaxableWages(hourlyRate: real, hoursWorked: real, dependents: real)
    requires hourlyRate > 0.0 && hoursWorked >= 0.0 && dependents >= 0.0
    ensures var p := ExactPay(hourlyRate, hoursWorked, dependents);
      0.0 <= p.taxableWagesUsed <= p.grossPay
      && (dependents * 50.0 >= p.grossPay ==> p.taxableWagesUsed == 0.0 && p.federalIncomeTax == 0.0)
      && (dependents * 50.0 < p.grossPay ==> p.taxableWagesUsed == p.grossPay - dependents * 50.0)
  {
    GrossPay(hourlyRate, hoursWorked, dependents);
  }

  /**
   * Social Security and Medicare are taken on gross pay, income tax on taxable wages;
   * the three add up to the total, and net pay is gross less the total. Since the
   * combined rate is below one and taxable wages never exceed gross, net pay keeps
   * at least 68.35% of gross.
   */
  lemma NetPay(hourlyRate: real, hoursWorked: real, dependents: real)
    requires hourlyRate > 0.0 && hoursWorked >= 0.0 && dependents >= 0.0
    ensures var p := ExactPay(hourlyRate, hoursWorked, dependents);
      p.socialSecurity == p.grossPay * 0.062 && p.medicare == p.grossPay * 0.0145
      && p.federalIncomeTax == EstimateFederalIncomeTax(p.taxableWagesUsed)
      && p.totalTaxes == p.socialSecurity + p.medicare + p.federalIncomeTax
      && p.netPay == p.grossPay - p.totalTaxes
      && 0.0 <= p.totalTaxes <= (0.24 + 0.062 + 0.0145) * p.grossPay
      && p.netPay >= (1.0 - 0.24 - 0.062 - 0.0145) * p.grossPay >= 0.0
  {
    TaxableWages(hourlyRate, hoursWorked, dependents);
  }

  /** Given valid numbers, every full-precision field is at least zero. */
  lemma ExactPayNonnegative(hourlyRate: real, hoursWorked: real, dependents: real)
    requires hourlyRate > 0.0 && hoursWorked >= 0.0 && dependents >= 0.0
    ensures AllNonnegative(ExactPay(hourlyRate, hoursWorked, dependents))
  {
    HoursSplit(hourlyRate, hoursWorked, dependents);
    GrossPay(hourlyRate, hoursWorked, dependents);
    NetPay(hourlyRate, hoursWorked, dependents);
  }

  /** Rounding every field of a non-negative stub gives a whole-cents, non-negative stub. */
  lemma RoundAllCents(p: PayrollResult)
    requires AllNonnegative(p)
    ensures AllCents(RoundAll(p)) && AllNonnegative(RoundAll(p))
  {
    Round2Nonnegative(p.regularHours);
    Round2Nonnegative(p.overtimeHours);
    Round2Nonnegative(p.regularPay);
    Round2Nonnegative(p.overtimePay);
    Round2Nonnegative(p.grossPay);
    Round2Nonnegative(p.socialSecurity);
    Round2Nonnegative(p.medicare);
    Round2Nonnegative(p.federalIncomeTax);
    Round2Nonnegative(p.totalTaxes);
    Round2Nonnegative(p.netPay);
    Round2Nonnegative(p.taxableWagesUsed);
  }

  /** A valid input yields a stub; every field is its exact value rounded once, in whole cents and non-negative. */
  lemma {:induction false} ComputeRoundsOnce(input: PayrollInput)
    requires IsValid(input)
    ensures var p := ExactPay(input.hourlyRate, input.hoursWorked, input.dependents);
      Compute(input).Ok?
      && Compute(input).value == RoundAll(p)
      && Compute(input).value.socialSecurity == Round2(p.grossPay * 0.062)
      && Compute(input).value.medicare == Round2(p.grossPay * 0.0145)
      && AllCents(Compute(input).value)
      && AllNonnegative(Compute(input).value)
  {
    var p := ExactPay(input.hourlyRate, input.hoursWorked, input.dependents);
    assert Compute(input) == Ok(RoundAll(p));
    ValidIff(input);
    NetPay(input.hourlyRate, input.hoursWorked, input.dependents);
    ExactPayNonnegative(input.hourlyRate, input.hoursWorked, input.dependents);
    RoundAllCents(p);
  }

  /** An invalid input is rejected with its first failing check, in the order name, status, period, rate, hours, dependents. */
  lemma FirstFailureWins(input: PayrollInput, e: ValidationError)
    ensures Compute(input) == Err(e) <==>
      Fails(input, e) && forall e' :: Rank(e') < Rank(e) ==> !Fails(input, e')
  {
    if Fails(input, e) && forall e' :: Rank(e') < Rank(e) ==> !Fails(input, e') {
      var r := Validate(input);
      assert r.Some?;
    }
  }

  /** A whole-cents amount strictly within two cents of zero is at most one cent away from it. */
  lemma CentsNearZero(x: real)
    requires IsCents(x) && -0.02 < x < 0.02
    ensures -0.01 <= x <= 0.01
  {
    var k := (x * 100.0).Floor;
    assert k as real == x * 100.0;
    assert -2 < k < 2;
  }

  /** Rounding a difference and taking the difference of the roundings disagree by at most one cent. */
  lemma RoundedDifference(a: real, b: real)
    ensures -0.01 <= Round2(a - b) - (Round2(a) - Round2(b)) <= 0.01
  {
    var d := Round2(a - b) - (Round2(a) - Round2(b));
    var kd, ka, kb := (Round2(a - b) * 100.0).Floor, (Round2(a) * 100.0).Floor, (Round2(b) * 100.0).Floor;
    assert d * 100.0 == (kd - ka + kb) as real;
    CentsNearZero(d);
  }

  /** Rounding a sum of three and summing the three roundings disagree by at most one cent. */
  lemma RoundedSum(a: real, b: real, c: real)
    ensures -0.01 <= Round2(a + b + c) - (Round2(a) + Round2(b) + Round2(c)) <= 0.01
  {
    var d := Round2(a + b + c) - (Round2(a) + Round2(b) + Round2(c));
    var ks, ka, kb, kc := (Round2(a + b + c) * 100.0).Floor, (Round2(a) * 100.0).Floor,
                          (Round2(b) * 100.0).Floor, (Round2(c) * 100.0).Floor;
    assert d * 100.0 == (ks - ka - kb - kc) as real;
    CentsNearZero(d);
  }

  /**
   * Because each field is rounded on its own, the stored net pay can differ from the
   * stored gross pay less the stored total taxes, and the stored total from the sum of
   * the stored taxes, by at most one cent.
   */
  lemma {:induction false} StubWithinOneCent(input: PayrollInput)
    requires IsValid(input)
    ensures var r := Compute(input).value;
      -0.01 <= r.netPay - (r.grossPay - r.totalTaxes) <= 0.01
      && -0.01 <= r.totalTaxes - (r.socialSecurity + r.medicare + r.federalIncomeTax) <= 0.01
  {
    var p := ExactPay(input.hourlyRate, input.hoursWorked, input.dependents);
    assert Compute(input).value == RoundAll(p);
    RoundedDifference(p.grossPay, p.totalTaxes);
    RoundedSum(p.socialSecurity, p.medicare, p.federalIncomeTax);
  }

  // ---------------------------------------------------------------------------
  // Worked scenarios
  // ---------------------------------------------------------------------------

  /** 45 hours at 20: 40 regular and 5 overtime hours, gross 950 in the 12% bracket. */
  lemma ScenarioOvertime()
    ensures Compute(PayrollInput("Alex", Single, 0.0, Weekly, 20.0, 45.0))
      == Ok(PayrollResult(40.0, 5.0, 800.0, 150.0, 950.0, 58.90, 13.78, 114.0, 186.68, 763.33, 950.0))
  {
    var input := PayrollInput("Alex", Single, 0.0, Weekly, 20.0, 45.0);
    assert Trim("Alex") == "Alex";
    assert Validate(input) == None;
    var p := ExactPay(20.0, 45.0, 0.0);
    assert p == PayrollResult(40.0, 5.0, 800.0, 150.0, 950.0, 58.9, 13.775, 114.0, 186.675, 763.325, 950.0);
    assert Compute(input) == Ok(RoundAll(p));
    Round2OfCents(58.9);
    Round2HalfUp(13.775);
    Round2HalfUp(186.675);
    Round2HalfUp(763.325);
    assert RoundAll(p) == PayrollResult(40.0, 5.0, 800.0, 150.0, 950.0, 58.90, 13.78, 114.0, 186.68, 763.33, 950.0);
  }

  /**
   * In the scenario above the medicare and net pay amounts are half-cent ties
   * (13.775 and 763.325) that round up, so the stored net pay is one cent more than
   * the stored gross less the stored total taxes.
   */
  lemma ScenarioOvertimeOffByOneCent()
    ensures var c := Compute(PayrollInput("Alex", Single, 0.0, Weekly, 20.0, 45.0));
      c.Ok? && c.value.netPay == 763.33 && c.value.grossPay - c.value.totalTaxes == 763.32
  {
    ScenarioOvertime();
  }

  /** 20 hours at 10 with 3 dependents: taxable wages 50, no income tax. */
  lemma ScenarioDependents()
    ensures Compute(PayrollInput("Sam", Married, 3.0, Biweekly, 10.0, 20.0))
      == Ok(PayrollResult(20.0, 0.0, 200.0, 0.0, 200.0, 12.40, 2.90, 0.0, 15.30, 184.70, 50.0))
  {
    var input := PayrollInput("Sam", Married, 3.0, Biweekly, 10.0, 20.0);
    assert Trim("Sam") == "Sam";
    assert Validate(input) == None;
    var p := ExactPay(10.0, 20.0, 3.0);
    assert p == PayrollResult(20.0, 0.0, 200.0, 0.0, 200.0, 12.4, 2.9, 0.0, 15.3, 184.7, 50.0);
    assert Compute(input) == Ok(RoundAll(p));
    Round2OfCents(12.4);
    Round2OfCents(2.9);
    Round2OfCents(15.3);
    Round2OfCents(184.7);
  }

  /** An empty name is reported even when the hours are also negative. */
  lemma ScenarioNamePrecedesHours()
    ensures Compute(PayrollInput("  ", Single, 0.0, Weekly, 20.0, -1.0)) == Err(MissingName)
  {
    TrimEmptyIffBlank("  ");
  }

  /** A zero hourly rate is rejected with the hourly-rate error and no stub. */
  lemma ScenarioZeroRate()
    ensures Compute(PayrollInput("Alex", Single, 0.0, Weekly, 0.0, 45.0)) == Err(InvalidHourlyRate)
  {
    assert Trim("Alex") == "Alex";
  }

  /**
   * Flat rates by bracket make a cliff at each limit: earning two cents more past 250
   * moves the whole amount into the 10% bracket, so net pay drops.
   */
  lemma NetPayCliffAtFirstLimit()
    ensures var below := ExactPay(6.25, 40.0, 0.0);
            var above := ExactPay(6.2505, 40.0, 0.0);
      below.grossPay == 250.0 && above.grossPay == 250.02 && above.netPay < below.netPay
  {
  }
}
