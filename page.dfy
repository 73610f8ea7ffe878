/**
 * The state of the payroll page component: the six form inputs, the error message
 * and the last result, with the Calculate and Reset handlers that update them.
 */
module PayrollPage {
  import opened JsString
  import opened Payroll

  class HomePage {
    var employeeName: string
    var maritalStatus: MaritalStatus
    var dependents: real
    var payPeriod: PayPeriod
    var hourlyRate: real
    var hoursWorked: real
    var error: string
    var results: Option<PayrollResult>

    /** The inputs as the calculator reads them. */
    function Inputs(): PayrollInput
      reads this
    {
      PayrollInput(employeeName, maritalStatus, dependents, payPeriod, hourlyRate, hoursWorked)
    }

    /** Every field at the value the page starts with. */
    predicate IsInitial()
      reads this
    {
      employeeName == "" && maritalStatus == StatusUnset && dependents == 0.0
      && payPeriod == PeriodUnset && hourlyRate == 0.0 && hoursWorked == 0.0
      && error == "" && results == None
    }

    /** Either an error is shown or a result is, never both and never neither. */
    predicate Shows(outcome: Result<PayrollResult, ValidationError>)
      reads this
    {
      match outcome
      case Ok(stub) => error == "" && results == Some(stub)
      case Err(e) => error == Message(e) && results == None
    }

    constructor ()
      ensures IsInitial()
    {
      employeeName, maritalStatus, dependents := "", StatusUnset, 0.0;
      payPeriod, hourlyRate, hoursWorked := PeriodUnset, 0.0, 0.0;
      error, results := "", None;
    }

    /**
     * onCalculate: clears the error and the result, runs the six checks in order and
     * stops at the first that fails, recording its message; otherwise stores the stub
     * with every field rounded once. The inputs are left as they are.
     */
    method Calculate()
      modifies this
      ensures Inputs() == old(Inputs())
      ensures Shows(Compute(Inputs()))
      ensures results == None <==> error != ""
      ensures results.Some? ==> IsValid(Inputs()) && AllCents(results.value) && AllNonnegative(results.value)
    {
      error := "";
      results := None;

      if Trim(employeeName) == [] {
        error := Message(MissingName);
        return;
      }
      if maritalStatus == StatusUnset {
        error := Message(MissingMaritalStatus);
        return;
      }
      if payPeriod == PeriodUnset {
        error := Message(MissingPayPeriod);
        return;
      }
      if hourlyRate <= 0.0 {
        error := Message(InvalidHourlyRate);
        return;
      }
      if hoursWorked < 0.0 {
        error := Message(NegativeHours);
        return;
      }
      if dependents < 0.0 {
        error := Message(NegativeDependents);
        return;
      }

      var exact := ExactPay(hourlyRate, hoursWorked, dependents);
      results := Some(RoundAll(exact));
      ValidIff(Inputs());
      ComputeRoundsOnce(Inputs());
    }

    /** onReset: every input and output back to its initial value. */
    method Reset()
      modifies this
      ensures IsInitial()
    {
      employeeName := "";
      maritalStatus := StatusUnset;
      dependents := 0.0;
      payPeriod := PeriodUnset;
      hourlyRate := 0.0;
      hoursWorked := 0.0;
      error := "";
      results := None;
    }
  }

  /** The page as it starts, or as Reset leaves it, rejects Calculate with the missing-name error. */
  lemma InitialPageRejected(page: HomePage)
    requires page.IsInitial()
    ensures Compute(page.Inputs()) == Err(MissingName)
  {
  }
}
