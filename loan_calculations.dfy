/** The amortization engine: a fixed-rate annuity payment computed in closed
    form, a month-by-month schedule, and a cumulative summary at one month.

    Money is modelled with exact `real` arithmetic, so the floating-point drift
    of the Python implementation is not reproduced; months and terms are
    unbounded `int`s. */
module LoanCalculations {

  /** The failures the engine can raise: the HTTP error for a month outside the
      term, and the arithmetic error of the payment formula. */
  datatype Failure =
    | HttpException(statusCode: int, detail: string)
    | ZeroDivisionError

  /** Raised when the requested summary month lies outside the loan term. */
  const InvalidMonth: Failure := HttpException(400, "Invalid month requested")

  datatype Result<T> = Ok(value: T) | Err(error: Failure)

  /** One row of the schedule; both amounts are rounded to cents. */
  datatype ScheduleEntry = ScheduleEntry(month: int, remainingBalance: real, monthlyPayment: real)

  /** The snapshot returned for one requested month. */
  datatype LoanSummary = LoanSummary(
    month: int,
    currentPrincipalBalance: real,
    totalPrincipalPaid: real,
    totalInterestPaid: real)

  /** `b` raised to a natural power. */
  function Pow(b: real, n: nat): real
  {
    if n == 0 then 1.0 else b * Pow(b, n - 1)
  }

  /** A power of a non-zero base is non-zero, and of a positive base positive. */
  lemma {:induction false} PowNonZero(b: real, n: nat)
    requires b != 0.0
    ensures Pow(b, n) != 0.0
    ensures b > 0.0 ==> Pow(b, n) > 0.0
  {
    if n > 0 {
      PowNonZero(b, n - 1);
    }
  }

  /** A positive power of a base above one is above one. */
  lemma {:induction false} PowAboveOne(b: real, n: nat)
    requires b > 1.0
    ensures Pow(b, n) >= 1.0
    ensures n > 0 ==> Pow(b, n) > 1.0
  {
    if n > 0 {
      PowAboveOne(b, n - 1);
      assert b * Pow(b, n - 1) >= b;
    }
  }

  /** A float raised to an integer power: a negative exponent divides by the
      positive power, and zero raised to a negative power is a division by zero. */
  function IntPower(base: real, e: int): (r: Result<real>)
    ensures r.Err? <==> base == 0.0 && e < 0
    ensures r.Err? ==> r.error == ZeroDivisionError
    ensures r.Ok? && e < 0 ==> r.value * Pow(base, -e) == 1.0
  {
    if e >= 0 then Ok(Pow(base, e))
    else if base == 0.0 then Err(ZeroDivisionError)
    else
      PowNonZero(base, -e);
      Ok(1.0 / Pow(base, -e))
  }

  /** Rounding to two decimals, ties to the even cent. */
  function Round2(x: real): (r: real)
    ensures -0.005 <= r - x <= 0.005
    ensures (r * 100.0).Floor as real == r * 100.0
    ensures x * 100.0 - (x * 100.0).Floor as real == 0.5 ==> (r * 100.0).Floor % 2 == 0
  {
    var scaled := x * 100.0;
    var whole := scaled.Floor;
    var frac := scaled - whole as real;
    var cents :=
      if frac < 0.5 then whole
      else if frac > 0.5 then whole + 1
      else if whole % 2 == 0 then whole
      else whole + 1;
    cents as real / 100.0
  }

  /** The monthly rate derived from an annual percentage. */
  function MonthlyRate(annualPercent: real): (r: real)
    ensures r * 1200.0 == annualPercent
  {
    (annualPercent / 100.0) / 12.0
  }

  /** The fixed annuity payment `amount * rate / (1 - (1 + rate) ** -termMonths)`,
      failing where the power or the quotient divides by zero. */
  function MonthlyPayment(amount: real, rate: real, termMonths: int): Result<real>
  {
    match IntPower(1.0 + rate, -termMonths)
    case Err(e) => Err(e)
    case Ok(discount) =>
      if 1.0 - discount == 0.0 then Err(ZeroDivisionError)
      else Ok(amount * rate / (1.0 - discount))
  }

  /** The interest charged for one month on `balance`. */
  function Interest(balance: real, rate: real): real
  {
    balance * rate
  }

  /** The (unrounded) balance after `k` passes of the monthly update
      `balance := balance - (payment - balance * rate)`. */
  function BalanceAfter(amount: real, rate: real, payment: real, k: nat): real
  {
    if k == 0 then amount
    else
      var prev := BalanceAfter(amount, rate, payment, k - 1);
      prev - (payment - Interest(prev, rate))
  }

  /** Principal accumulated over the first `k` months. */
  function PrincipalPaid(amount: real, rate: real, payment: real, k: nat): real
  {
    if k == 0 then 0.0
    else
      PrincipalPaid(amount, rate, payment, k - 1)
        + (payment - Interest(BalanceAfter(amount, rate, payment, k - 1), rate))
  }

  /** Interest accumulated over the first `k` months. */
  function InterestPaid(amount: real, rate: real, payment: real, k: nat): real
  {
    if k == 0 then 0.0
    else
      InterestPaid(amount, rate, payment, k - 1)
        + Interest(BalanceAfter(amount, rate, payment, k - 1), rate)
  }

  /** The first `k` schedule rows, in the order the loop appends them. */
  function Entries(amount: real, rate: real, payment: real, k: nat): seq<ScheduleEntry>
  {
    if k == 0 then []
    else
      Entries(amount, rate, payment, k - 1)
        + [ScheduleEntry(k, Round2(BalanceAfter(amount, rate, payment, k)), Round2(payment))]
  }

  /** The number of loop passes of `for month in range(1, termMonths + 1)`. */
  function LoopCount(termMonths: int): nat
  {
    if termMonths < 0 then 0 else termMonths
  }

  /** The non-negative clamp `max(0, balance)`. */
  function ClampAtZero(balance: real): (r: real)
    ensures r >= 0.0 && r >= balance
    ensures r == balance || r == 0.0
  {
    if balance > 0.0 then balance else 0.0
  }

  /** What the schedule computation yields. */
  function Schedule(amount: real, annualPercent: real, termMonths: int): Result<seq<ScheduleEntry>>
  {
    var rate := MonthlyRate(annualPercent);
    match MonthlyPayment(amount, rate, termMonths)
    case Err(e) => Err(e)
    case Ok(payment) => Ok(Entries(amount, rate, payment, LoopCount(termMonths)))
  }

  /** What the summary computation yields. */
  function Summary(amount: real, annualPercent: real, termMonths: int, month: int): Result<LoanSummary>
  {
    if month < 1 || month > termMonths then Err(InvalidMonth)
    else
      var rate := MonthlyRate(annualPercent);
      match MonthlyPayment(amount, rate, termMonths)
      case Err(e) => Err(e)
      case Ok(payment) =>
        Ok(LoanSummary(
             month,
             ClampAtZero(BalanceAfter(amount, rate, payment, month)),
             PrincipalPaid(amount, rate, payment, month),
             InterestPaid(amount, rate, payment, month)))
  }

  /** Builds the schedule by running the monthly update and appending one
      rounded row per month. */
  method GenerateAmortizationSchedule(amount: real, interestRate: real, termMonths: int)
    returns (res: Result<seq<ScheduleEntry>>)
    ensures res == Schedule(amount, interestRate, termMonths)
  {
    var monthlyRate := MonthlyRate(interestRate);
    var payment := MonthlyPayment(amount, monthlyRate, termMonths);
    if payment.Err? {
      return Err(payment.error);
    }
    var monthlyPayment := payment.value;
    var schedule: seq<ScheduleEntry> := [];
    var remainingBalance := amount;
    var month := 1;
    while month <= termMonths
      invariant 1 <= month <= LoopCount(termMonths) + 1
      invariant remainingBalance == BalanceAfter(amount, monthlyRate, monthlyPayment, month - 1)
      invariant schedule == Entries(amount, monthlyRate, monthlyPayment, month - 1)
    {
      var interest := Interest(remainingBalance, monthlyRate);
      var principal := monthlyPayment - interest;
      remainingBalance := remainingBalance - principal;
      schedule := schedule + [ScheduleEntry(month, Round2(remainingBalance), Round2(monthlyPayment))];
      month := month + 1;
    }
    return Ok(schedule);
  }

  /** Validates the month, then reruns the monthly update up to it while
      accumulating principal and interest. */
  method CalculateLoanSummary(amount: real, annualInterestRate: real, loanTermMonths: int, month: int)
    returns (res: Result<LoanSummary>)
    ensures res == Summary(amount, annualInterestRate, loanTermMonths, month)
  {
    if month < 1 || month > loanTermMonths {
      return Err(InvalidMonth);
    }
    var monthlyInterestRate := MonthlyRate(annualInterestRate);
    var payment := MonthlyPayment(amount, monthlyInterestRate, loanTermMonths);
    if payment.Err? {
      return Err(payment.error);
    }
    var monthlyPayment := payment.value;
    var totalPrincipalPaid := 0.0;
    var totalInterestPaid := 0.0;
    var remainingBalance := amount;
    var m := 1;
    while m <= month
      invariant 1 <= m <= month + 1
      invariant remainingBalance == BalanceAfter(amount, monthlyInterestRate, monthlyPayment, m - 1)
      invariant totalPrincipalPaid == PrincipalPaid(amount, monthlyInterestRate, monthlyPayment, m - 1)
      invariant totalInterestPaid == InterestPaid(amount, monthlyInterestRate, monthlyPayment, m - 1)
      invariant totalPrincipalPaid + remainingBalance == amount
    {
      var interestPayment := Interest(remainingBalance, monthlyInterestRate);
      var principalPayment := monthlyPayment - interestPayment;
      remainingBalance := remainingBalance - principalPayment;
      totalPrincipalPaid := totalPrincipalPaid + principalPayment;
      totalInterestPaid := totalInterestPaid + interestPayment;
      m := m + 1;
    }
    return Ok(LoanSummary(month, ClampAtZero(remainingBalance), totalPrincipalPaid, totalInterestPaid));
  }
}
