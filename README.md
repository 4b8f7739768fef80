# Loan amortization engine — a Dafny model

This project models the computational core of a small loan-management web API:

- **The amortization engine** (`loan_calculations.py`). It turns an annual percentage rate, a principal and a term in months into three things:
  - a fixed monthly payment, from the closed-form annuity formula;
  - a month-by-month schedule of rounded balances;
  - a cumulative summary (balance, principal paid, interest paid) at one requested month.
- **The user-creation constraints** (`schemas.py`):
  - the name is 3 to 35 characters, each an ASCII letter or whitespace;
  - the email is not empty.

Money is `real`, so the arithmetic is exact. Months and terms are `int`.

Files:
- `loan_calculations.dfy` (module `LoanCalculations`) holds the definitions:
  - the result and failure types;
  - Python's `**` with an integer exponent (`IntPower`, built on `Pow`);
  - `round(x, 2)` (`Round2`);
  - the monthly rate and the payment formula;
  - the specification functions `BalanceAfter`, `PrincipalPaid`, `InterestPaid`, `Entries`, `Schedule` and `Summary`;
  - the two loop methods `GenerateAmortizationSchedule` and `CalculateLoanSummary`. Each `ensures` that its result equals the matching specification function.
- `loan_properties.dfy` (module `LoanProperties`) holds what is proved about those functions:
  - the closed form of the balance;
  - exact payoff at the end of the term;
  - the shape of the schedule;
  - the month check and the bookkeeping of the summary;
  - agreement between the schedule and the summary;
  - the scenarios the repository's tests use.
- `schemas.dfy` (module `Schemas`) holds the name and email rules and the concrete accept/reject examples.

Errors are values, not exceptions:
- `HttpException(400, "Invalid month requested")` is the `Failure` value `InvalidMonth`.
- Python's `ZeroDivisionError` from the payment formula is the `Failure` value `ZeroDivisionError`. It covers both `0.0 ** -n` and the division by `1 - (1 + r) ** -n` when that is `0`.

A zero interest rate is not special-cased: `(1 + 0.0) ** -n` is `1.0`, so the payment formula at loan_calculations.py:8 and :42 divides by zero in both entry points. The summary reaches that point only after its month check passes. `ZeroRateFails` states this.

## Model

| member | source | states |
|---|---|---|
| `LoanCalculations.PowNonZero` | loan_calculations.py:8 | A power of a non-zero base is non-zero, and of a positive base positive, so the negative power in the payment formula is defined whenever `1 + rate != 0` |
| `LoanCalculations.PowAboveOne` | loan_calculations.py:8 | For `1 + rate > 1`, `(1 + rate)^n > 1` for every `n >= 1`, so the discount factor lies strictly between 0 and 1 |
| `LoanCalculations.IntPower` | loan_calculations.py:8 | `base ** e` for an integer exponent fails exactly when the base is 0 and the exponent negative, and the failure is a division by zero. A negative power is the inverse of the positive one |
| `LoanCalculations.Round2` | loan_calculations.py:26-27 | Rounding to two decimals lands on a whole number of cents within half a cent of the input, and an exact half-cent tie goes to the even cent |
| `LoanCalculations.MonthlyRate` | loan_calculations.py:5 | The monthly rate times 1200 gives back the annual percentage |
| `LoanCalculations.ClampAtZero` | loan_calculations.py:65 | `max(0, balance)` is non-negative, at least the balance, and equal either to the balance or to 0 |
| `LoanCalculations.GenerateAmortizationSchedule` | loan_calculations.py:3-30 | The loop computes the payment once, fails as the formula does, and otherwise appends exactly the rows of `Schedule`. The loop invariants say the running balance is `BalanceAfter` of the months done and the list built so far is `Entries` of those months |
| `LoanCalculations.CalculateLoanSummary` | loan_calculations.py:33-68 | Checks the month first, then runs the loop. The result is exactly `Summary`. The loop invariant `totalPrincipalPaid + remainingBalance == amount` holds after every month |
| `LoanProperties.Round2OfCents` | loan_calculations.py:26 | A value already in whole cents, such as a zero balance, is not changed by rounding |
| `LoanProperties.PaymentFailsOnlyByDivision` | loan_calculations.py:8 | The payment formula's only failure is a division by zero, never the month error |
| `LoanProperties.PaymentDefinedIff` | loan_calculations.py:8 | The payment exists if and only if `(1 + rate) ** -term` is defined and differs from 1 |
| `LoanProperties.PaymentDegenerateInputs` | loan_calculations.py:8 | A zero rate, a zero term, or a rate of -100% with a positive term makes the formula divide by zero |
| `LoanProperties.PaymentCoversFirstInterest` | loan_calculations.py:8 | A positive rate and a positive term always give a payment. For a positive amount that payment is larger than the first month's interest `amount * rate` |
| `LoanProperties.BalanceRecurrence` | loan_calculations.py:15-21 | Each month the new balance is `old * (1 + rate) - payment` |
| `LoanProperties.ScaledClosedForm` | loan_calculations.py:13-21 | For every rate, `rate * balance_k == rate * amount * (1+rate)^k - payment * ((1+rate)^k - 1)` |
| `LoanProperties.BalanceClosedForm` | loan_calculations.py:13-21 | For a non-zero rate, `balance_k == amount * (1+rate)^k - payment * ((1+rate)^k - 1) / rate` |
| `LoanProperties.PaidOffAtTerm` | loan_calculations.py:8-21 | When the formula yields a payment and the term is at least one month, the rate is non-zero and the unrounded balance after the last month is exactly 0 |
| `LoanProperties.PrincipalPortionGrowth` | loan_calculations.py:15-18 | The principal repaid in month `k + 1` is `(1+rate)^k * (payment - rate * amount)` |
| `LoanProperties.MonthReducesBalance` | loan_calculations.py:15-21 | For a non-negative rate and a payment above `rate * amount`, every month strictly lowers the balance |
| `LoanProperties.BalanceDecreases` | loan_calculations.py:13-21 | Under the same conditions the balance is strictly decreasing across any span of months |
| `LoanProperties.PrincipalPlusBalance` | loan_calculations.py:46-59 | Principal repaid so far plus the remaining balance is always the amount borrowed |
| `LoanProperties.PaymentsSplit` | loan_calculations.py:50-60 | After `k` months, total principal plus total interest equals `k` payments |
| `LoanProperties.InterestAccrues` | loan_calculations.py:48-60 | With a positive rate, a payment above `rate * amount` (for the formula's payment, a positive amount), and a balance that reaches 0 at the end of the term, total interest is positive in every month of the term |
| `LoanProperties.EntriesAt` | loan_calculations.py:13-28 | After `k` passes the list has `k` rows. Row `i` is month `i + 1`, with the rounded balance after that month and the rounded payment |
| `LoanProperties.ScheduleLength` | loan_calculations.py:13-28 | A successful schedule has exactly `term_months` rows, and none for a negative term |
| `LoanProperties.ScheduleMonths` | loan_calculations.py:13-25 | Row `i` has month `i + 1`. The first row is month 1 and the last is month `term_months` |
| `LoanProperties.SchedulePaymentConstant` | loan_calculations.py:8-27 | Every row carries the same payment: the formula's payment rounded to cents |
| `LoanProperties.ScheduleBalances` | loan_calculations.py:21-26 | Row `i` shows the balance after month `i + 1`, rounded to cents |
| `LoanProperties.ScheduleEndsAtZero` | loan_calculations.py:8-28 | The last row of every successful schedule shows a balance of exactly 0 |
| `LoanProperties.ZeroRateFails` | loan_calculations.py:42 | A zero rate is not special-cased. The schedule fails with a division by zero, and so does the summary for every valid month |
| `LoanProperties.SummaryInvalidMonth` | loan_calculations.py:35-36 | The summary fails with `HttpException(400, "Invalid month requested")` if and only if `month < 1` or `month > loan_term_months`. This holds whatever the rate, because the check runs before the formula |
| `LoanProperties.SummaryFields` | loan_calculations.py:63-67 | A successful summary has a valid month and echoes it. Its balance is non-negative and equals `max(0, amount - total_principal_paid)` |
| `LoanProperties.SummaryTotals` | loan_calculations.py:48-60 | The summary's two totals add up to `month` payments |
| `LoanProperties.PositiveLoanPaysBoth` | loan_calculations.py:44-67 | For a positive amount and rate and any valid month, the summary exists, both totals are positive, and the balance is not clamped |
| `LoanProperties.ScheduleSummaryFailTogether` | loan_calculations.py:39-42 | For a valid month, the schedule fails if and only if the summary fails, and with the same error |
| `LoanProperties.ScheduleSummaryAgree` | loan_calculations.py:39-56 | For a valid month, the schedule's row rounds the same unrounded balance that the summary clamps at 0 |
| `LoanProperties.ScheduleSummaryWithinRounding` | loan_calculations.py:15-27 | For a positive amount and rate, the schedule's row and the summary's balance for the same month differ by at most half a cent |
| `LoanProperties.ExampleSchedule` | test_main.py:207-217 | 1000 at 5% over 12 months gives 12 rows, months 1 to 12, and the last balance is 0 |
| `LoanProperties.ExampleSummary` | test_main.py:220-238 | For the same loan at month 6, the balance is non-negative and both totals are positive. Month 13 fails with status 400 and the message "Invalid month requested" |
| `Schemas.MatchesNamePattern` | schemas.py:4 | The pattern `^[a-zA-Z\s]+$` matches if and only if the string is non-empty and every character is in the class |
| `Schemas.ValidationErrors` | schemas.py:4-5 | The name field is reported if and only if the name is invalid. The email field is reported if and only if the email is empty. Both are reported together |
| `Schemas.ValidNameIff` | schemas.py:4 | A name is valid if and only if its length is between 3 and 35 and every character is an ASCII letter or whitespace |
| `Schemas.AcceptedIff` | schemas.py:3-5 | A request is accepted if and only if the name is valid and the email has at least one character |
| `Schemas.DigitsRejected` | test_main.py:241-249 | "Invalid123" is refused because of its digits, and the error names the `name` field |
| `Schemas.SpecialCharactersRejected` | test_main.py:251-254 | "@Invalid!" is refused |
| `Schemas.EmbeddedSpaceAccepted` | test_main.py:256-259 | "Valid Name" is accepted, so an embedded space is allowed |
| `Schemas.EmptyFieldsRejected` | test_main.py:266-284 | Two empty fields report both `name` and `email`. An empty email alone and an empty name alone are each refused |

## Left out

- IEEE-754 floating point. Every amount is an exact real, so float drift is not modelled, nor the cases where the payment's denominator becomes 0 because `1 + r` or `(1 + r) ** -n` rounds to exactly 1.0 in binary floating point (cancellation).
- `IntPower`: does not model the `OverflowError` that Python's float `**` raises at loan_calculations.py:8 and :42 when the power overflows (for example an annual rate of -600% over 1100 months gives `0.5 ** -1100`); the model returns the exact payment there.
- `Round2` rounds the exact value half-to-even at the hundredths. Python's `round(x, 2)` rounds the binary float, so the two can differ on a value that is not representable in binary.
- The email syntax check of `EmailStr` (schemas.py:5) happens inside pydantic and the email-validator package, which are not part of this model. Only the `min_length=1` condition is modelled.
- `\s` is read as the Unicode White_Space property. That is what the regex engine behind `Field(pattern=...)` uses in Unicode mode.
- The HTTP layer is left out:
  - routes/users.py, routes/loans.py and main.py hold request routing, database sessions and HTTP status codes. The loan routes call a `services` module that is not part of this model (routes/loans.py:3, :59, :67);
  - models.py and database.py hold the ORM tables, cascades and sessions.
- `LoanCreate` and `LoanResponse` (schemas.py:7-21) are plain typed records with no constraints. The engine's parameters take their place.
