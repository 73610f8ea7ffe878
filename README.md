# Payroll calculator (Dafny model)

This project models the payroll calculator on the payroll page of a small Next.js app. The page
takes one hourly employee's name, marital status, dependent count, pay period, hourly rate and hours
worked. It validates them, then computes a pay stub:

- the split into regular and overtime hours at 40 hours;
- regular pay, and overtime pay at 1.5 times the rate;
- gross pay;
- Social Security at 6.2% and Medicare at 1.45% of gross pay;
- taxable wages: gross less 50 per dependent, never below zero;
- a federal income tax estimate that applies one flat rate per bracket to the whole amount;
- total taxes and net pay.

Each of the eleven stub fields is rounded to cents exactly once, when it is stored.

Files:

- `jsstring.dfy`, module `JsString`: JavaScript's `String.prototype.trim`, which the name check uses.
- `payroll.dfy`, module `Payroll`:
  - `round2` (`Round2`, with `Math.min` and `Math.max`);
  - `estimateFederalIncomeTax` (`EstimateFederalIncomeTax`), with a table-scan reference definition (`TableRate` over `BRACKETS`);
  - validation as a value (`ValidationError`, `Fails`, `Rank`, `Validate`, `Message`);
  - the full-precision computation (`ExactPay`), the rounding step (`RoundAll`) and the whole handler as a value (`Compute`);
  - lemmas about all of these.
- `page.dfy`, module `PayrollPage`: the component state as a class `HomePage`. It holds the six inputs plus `error` and `results`. Its methods `Calculate` (onCalculate) and `Reset` (onReset) update those fields in place. `Calculate` is proved against `Compute`.

JavaScript numbers are modelled as exact `real`s. `Math.round(y)` becomes `Floor(y + 1/2)`, which
rounds to the nearest integer and breaks ties toward +infinity, as `Math.round` does.

Choices the page's code settles:

- Ties in `round2` go toward +infinity (`Math.round`), not away from zero. The two agree on every value the calculator rounds, because all of them are non-negative (`ExactPayNonnegative`).
- `dependents` is a `real`. The form stores `Number(value)`, and no check requires a whole number; only a negative count is rejected.
- Marital status and pay period have an explicit "not selected" value (`StatusUnset`, `PeriodUnset`). This stands for the empty string the page starts with and that the checks reject.
- For 45 hours at 20 with no dependents, Medicare is 13.775 and net pay 763.325 at full precision. Both are half-cent ties. Exact rounding gives 13.78 and 763.33 (`ScenarioOvertime`). So the stored net pay is one cent more than stored gross less stored total taxes (`ScenarioOvertimeOffByOneCent`). `StubWithinOneCent` proves that this one-cent difference is the most there can ever be.

## Model

| member | source | states |
|---|---|---|
| `JsString.TrimStart` | app/payroll/page.tsx:70 | the result is a suffix of the input, every dropped character is whitespace or a line terminator, and the result does not start with one |
| `JsString.TrimEnd` | app/payroll/page.tsx:70 | the result is a prefix of the input, every dropped character is whitespace or a line terminator, and the result does not end with one |
| `JsString.Trim` | app/payroll/page.tsx:70 | `trim()` returns an infix of the input: everything before and after it is trimmable, and its first and last characters are not |
| `JsString.TrimEmptyIffBlank` | app/payroll/page.tsx:70 | a name fails the name check exactly when every character is whitespace (including the empty name) |
| `JsString.TrimIdempotent` | app/payroll/page.tsx:70 | trimming twice is the same as trimming once |
| `Payroll.Min` | app/payroll/page.tsx:95 | `Math.min`: the result is one of the two arguments and no larger than either |
| `Payroll.Max` | app/payroll/page.tsx:32 | `Math.max` (also used at lines 96 and 109): the result is one of the two arguments and no smaller than either |
| `Payroll.Round2` | app/payroll/page.tsx:22-24 | the result is a whole number of cents, within half a cent below (exclusive) or above (inclusive) the input |
| `Payroll.Round2Unique` | app/payroll/page.tsx:22-24 | exactly one whole-cents value lies in that window, so the contract of `Round2` determines it |
| `Payroll.Round2HalfUp` | app/payroll/page.tsx:22-24 | an exact half cent rounds up, toward +infinity, as `Math.round` does |
| `Payroll.Round2OfCents` | app/payroll/page.tsx:22-24 | a value already in whole cents is unchanged |
| `Payroll.Round2Idempotent` | app/payroll/page.tsx:22-24 | rounding a rounded value changes nothing |
| `Payroll.Round2Monotone` | app/payroll/page.tsx:22-24 | rounding preserves order |
| `Payroll.Round2Nonnegative` | app/payroll/page.tsx:22-24 | a non-negative amount rounds to a non-negative amount |
| `Payroll.EstimateFederalIncomeTax` | app/payroll/page.tsx:31-41 | the tax lies between 0 and 24% of the wages clamped at zero, and it is 0 up to 250 inclusive |
| `Payroll.TaxFollowsTable` | app/payroll/page.tsx:32-40 | for every input, the if-chain equals the clamped wages times the rate from an ascending scan of the table (250: 0%, 750: 10%, 1500: 12%, 3000: 22%, above: 24%) |
| `Payroll.TaxAtBracketLimits` | app/payroll/page.tsx:36-40 | upper limits are inclusive: 250, 750, 1500 and 3000 take their own row's rate, and one cent above each takes the next row's rate on the whole amount |
| `Payroll.TaxClampsNegative` | app/payroll/page.tsx:32 | negative taxable wages are taxed like zero, at 0 |
| `Payroll.TaxMonotone` | app/payroll/page.tsx:36-40 | the estimate never decreases as taxable wages grow |
| `Payroll.Message` | app/payroll/page.tsx:70-93 | every validation failure records a non-empty message |
| `Payroll.MessagesDistinct` | app/payroll/page.tsx:70-93 | different checks record different messages |
| `Payroll.Validate` | app/payroll/page.tsx:70-93 | None only when no check fails; otherwise the reported check fails and every check before it in the order (name, status, period, rate, hours, dependents) passes |
| `Payroll.ValidIff` | app/payroll/page.tsx:70-93 | validation passes if and only if the trimmed name is non-empty, status and period are set, rate > 0, hours >= 0 and dependents >= 0 |
| `Payroll.FirstFailureWins` | app/payroll/page.tsx:70-93 | the computation is rejected with error e if and only if check e fails and all earlier checks pass; no result is produced then |
| `Payroll.Fails` | app/payroll/page.tsx:70-93 | the six tests, one per error kind; its own contract says the name test fails exactly on names made only of whitespace; `Validate`, `ValidIff` and `FirstFailureWins` state how the tests combine |
| `Payroll.ExactPay` | app/payroll/page.tsx:95-114 | the straight-line bindings at full precision: regular + overtime hours = hours worked, regular hours at most 40, overtime and taxable wages not negative, taxable wages at least gross less 50 per dependent, net = gross less the three taxes; `HoursSplit`, `GrossPay`, `TaxableWages` and `NetPay` state the rest |
| `Payroll.HoursSplit` | app/payroll/page.tsx:95-96 | for hours >= 0: regular + overtime = hours, 0 <= regular <= 40, overtime >= 0; up to 40 hours everything is regular, and above 40 regular is 40 and overtime is hours - 40 |
| `Payroll.GrossPay` | app/payroll/page.tsx:98-101 | regular pay is hours times rate, overtime is 1.5 times the rate, gross is their sum and not negative; gross equals hours times rate up to 40 hours, and 40 times rate plus 1.5 times rate per extra hour beyond that |
| `Payroll.TaxableWages` | app/payroll/page.tsx:107-111 | 0 <= taxable wages <= gross; when 50 per dependent covers gross, taxable wages and income tax are both 0; otherwise taxable wages are gross less 50 per dependent |
| `Payroll.NetPay` | app/payroll/page.tsx:103-114 | Social Security and Medicare are 6.2% and 1.45% of gross; total = Social Security + Medicare + income tax; net = gross - total; total is at most 31.65% of gross, so net keeps at least 68.35% of gross and is non-negative |
| `Payroll.ExactPayNonnegative` | app/payroll/page.tsx:95-114 | for a positive rate and non-negative hours and dependents, every full-precision field of the stub is non-negative |
| `Payroll.RoundAllCents` | app/payroll/page.tsx:116-128 | rounding each of the eleven fields of a non-negative stub gives whole cents that are still non-negative |
| `Payroll.RoundAll` | app/payroll/page.tsx:116-128 | every one of the eleven stored fields is whole cents; `ComputeRoundsOnce` states that each is round2 of its own full-precision value |
| `Payroll.Compute` | app/payroll/page.tsx:66-129 | onCalculate as a value: an error exactly when validation fails, and then the first failing check in order; otherwise a stub in whole cents; `ComputeRoundsOnce` and `StubWithinOneCent` state the rest |
| `Payroll.ComputeRoundsOnce` | app/payroll/page.tsx:116-128 | a valid input yields a stub whose every field is its full-precision value rounded once, for example Social Security = round2(gross × 0.062); all fields are whole cents and non-negative |
| `Payroll.StubWithinOneCent` | app/payroll/page.tsx:113-128 | stored net pay is within one cent of stored gross less stored total taxes, and stored total taxes are within one cent of the sum of the three stored taxes |
| `Payroll.ScenarioOvertime` | app/payroll/page.tsx:95-128 | 45 hours at 20 with no dependents: 40 + 5 hours, 800 + 150 = 950 gross, 58.90 Social Security, 13.78 Medicare, 114 income tax (12% bracket), 186.68 total, 763.33 net |
| `Payroll.ScenarioOvertimeOffByOneCent` | app/payroll/page.tsx:113-128 | in that scenario, stored net pay (763.33) and stored gross less stored total (763.32) differ by a cent |
| `Payroll.ScenarioDependents` | app/payroll/page.tsx:95-128 | 20 hours at 10 with 3 dependents: gross 200, taxable wages 50, no income tax, 12.40 + 2.90 = 15.30 taxes, 184.70 net |
| `Payroll.ScenarioNamePrecedesHours` | app/payroll/page.tsx:70-89 | a blank name with negative hours reports the missing-name error |
| `Payroll.ScenarioZeroRate` | app/payroll/page.tsx:82-85 | a zero hourly rate is rejected with the hourly-rate error and no stub |
| `Payroll.NetPayCliffAtFirstLimit` | app/payroll/page.tsx:36-37 | because the rate applies to the whole amount, gross 250.02 gives less net pay than gross 250 |
| `PayrollPage.HomePage.constructor` | app/payroll/page.tsx:44-64 | the page starts with empty name, status and period, zero dependents, rate and hours, no error and no result |
| `PayrollPage.HomePage.Calculate` | app/payroll/page.tsx:66-129 | inputs are unchanged; the stored error and result depend only on the inputs (they are cleared first) and are exactly what `Compute` gives: the first failed check's message with no result, or an empty error with the rounded stub; a result is shown exactly when no error is; a stored stub is whole cents and non-negative |
| `PayrollPage.HomePage.Reset` | app/payroll/page.tsx:131-140 | all eight fields are back at their initial values |
| `PayrollPage.InitialPageRejected` | app/payroll/page.tsx:44-73 | for any page in its initial state (as the constructor and Reset leave it), the calculation reports the missing-name error |

## Left out

- Rendering: the JSX, cards, alerts and result display (app/payroll/page.tsx:142-420) are presentation only. The `onChange` handlers that copy form fields into state are stood in for by the class's public fields.
- `formatMoney` (app/payroll/page.tsx:26-28): it calls `toLocaleString`, whose output depends on the locale.
- IEEE-754 behaviour of JavaScript numbers. The model computes exactly. A double may land a half-cent tie on either side, so its rounding can differ from the model's by one cent. The model also has no `NaN` or `Infinity`. `Number("")` is 0, which the model covers. `Number("abc")` is `NaN`, which passes the rate, hours and dependents checks in JavaScript; the model has no such value.
- `String.prototype.trim` covers the whitespace and line-terminator code points by explicit list, not a Unicode database.
- Marital status and pay period are only checked for being set. The computation never reads them.
- React's update batching and re-rendering: the model takes the final state after a handler returns.
- components/Menu.tsx (navigation links) and next.config.ts (build configuration) hold no payroll logic.
