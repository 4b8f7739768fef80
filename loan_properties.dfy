/** What the amortization engine guarantees: the shape of the schedule, the
    closed form of the balance, exact payoff at the end of the term, the
    summary's month check and bookkeeping, and agreement between the two
    entry points. */
module LoanProperties {
  import opened LoanCalculations

  // ---------------------------------------------------------------------------
  // Arithmetic helpers

  lemma {:induction false} PowOfOne(n: nat)
    ensures Pow(1.0, n) == 1.0
  {
    if n > 0 {
      PowOfOne(n - 1);
    }
  }

  /** A value already in whole cents is left unchanged by rounding. */
  lemma Round2OfCents(x: real)
    requires (x * 100.0).Floor as real == x * 100.0
    ensures Round2(x) == x
  {
    var scaled := x * 100.0;
    assert scaled - scaled.Floor as real == 0.0;
  }

  /** The closed form before any month has passed. */
  lemma ClosedFormBase(r: real, a: real, p: real, x: real)
    requires x == 1.0
    ensures r * a == r * a * x - p * (x - 1.0)
  {
  }

  /** One month of the closed form, multiplied through by the rate. */
  lemma ClosedFormStep(r: real, a: real, p: real, b: real, x: real, next: real, y: real)
    requires r * b == r * a * x - p * (x - 1.0)
    requires next == b - (p - b * r)
    requires y == (1.0 + r) * x
    ensures r * next == r * a * y - p * (y - 1.0)
  {
    assert r * next == (r * b) * (1.0 + r) - r * p;
  }

  lemma DivideClosedForm(r: real, a: real, p: real, b: real, x: real)
    requires r != 0.0
    requires r * b == r * a * x - p * (x - 1.0)
    ensures b == a * x - p * (x - 1.0) / r
  {
    assert r * (a * x - p * (x - 1.0) / r) == r * a * x - p * (x - 1.0);
  }

  /** Clearing the denominator of the payment formula. */
  lemma ClearDenominator(a: real, r: real, x: real, d: real, p: real)
    requires d * x == 1.0
    requires 1.0 - d != 0.0
    requires p == a * r / (1.0 - d)
    ensures p * (x - 1.0) == a * r * x
  {
    assert p * (1.0 - d) == a * r;
    assert x - 1.0 == x * (1.0 - d);
    calc {
      p * (x - 1.0);
      p * (x * (1.0 - d));
      x * (p * (1.0 - d));
      x * (a * r);
    }
  }

  lemma ZeroFactor(r: real, b: real)
    requires r != 0.0 && r * b == 0.0
    ensures b == 0.0
  {
  }

  /** The principal portion of the first month. */
  lemma PortionBase(r: real, a: real, p: real, x: real)
    requires x == 1.0
    ensures p - a * r == x * (p - r * a)
  {
  }

  /** One month of the geometric growth of the principal portion. */
  lemma PortionStep(r: real, a: real, p: real, b: real, x: real, next: real, y: real)
    requires p - b * r == x * (p - r * a)
    requires next == b - (p - b * r)
    requires y == (1.0 + r) * x
    ensures p - next * r == y * (p - r * a)
  {
    assert p - next * r == (p - b * r) * (1.0 + r);
  }

  lemma ProductPositive(x: real, y: real)
    requires x > 0.0 && y > 0.0
    ensures x * y > 0.0
  {
  }

  // ---------------------------------------------------------------------------
  // The payment formula

  /** The only error the payment formula raises is a division by zero. */
  lemma PaymentFailsOnlyByDivision(amount: real, rate: real, termMonths: int)
    requires MonthlyPayment(amount, rate, termMonths).Err?
    ensures MonthlyPayment(amount, rate, termMonths).error == ZeroDivisionError
    ensures MonthlyPayment(amount, rate, termMonths).error != InvalidMonth
  {
  }

  /** The formula is defined exactly when `(1 + rate) ** -termMonths` is
      defined and differs from 1. */
  lemma PaymentDefinedIff(amount: real, rate: real, termMonths: int)
    ensures MonthlyPayment(amount, rate, termMonths).Ok?
        <==> (termMonths > 0 ==> 1.0 + rate != 0.0)
             && Pow(1.0 + rate, if termMonths < 0 then -termMonths else termMonths) != 1.0
  {
    var q := 1.0 + rate;
    if termMonths > 0 && q != 0.0 {
      var x := Pow(q, termMonths);
      var d := IntPower(q, -termMonths).value;
      assert d * x == 1.0;
      assert d == 1.0 <==> x == 1.0;
    }
  }

  /** A zero rate, a zero term, or a rate of -100% with a positive term makes
      the formula divide by zero. */
  lemma PaymentDegenerateInputs(amount: real, rate: real, termMonths: int)
    requires rate == 0.0 || termMonths == 0 || (1.0 + rate == 0.0 && termMonths > 0)
    ensures MonthlyPayment(amount, rate, termMonths) == Err(ZeroDivisionError)
  {
    if rate == 0.0 {
      PowOfOne(if termMonths < 0 then -termMonths else termMonths);
    }
    PaymentDefinedIff(amount, rate, termMonths);
  }

  /** A positive rate over a positive term always yields a payment, and for a
      positive amount it exceeds the first month's interest. */
  lemma PaymentCoversFirstInterest(amount: real, rate: real, termMonths: int)
    requires rate > 0.0 && termMonths >= 1
    ensures MonthlyPayment(amount, rate, termMonths).Ok?
    ensures amount > 0.0 ==> MonthlyPayment(amount, rate, termMonths).value > amount * rate
  {
    var q := 1.0 + rate;
    var x := Pow(q, termMonths);
    PowAboveOne(q, termMonths);
    var d := IntPower(q, -termMonths).value;
    assert d * x == 1.0;
    assert 0.0 < d < 1.0;
    var p := amount * rate / (1.0 - d);
    assert MonthlyPayment(amount, rate, termMonths) == Ok(p);
    if amount > 0.0 {
      assert p * (1.0 - d) == amount * rate;
      assert amount * rate > 0.0;
      assert p > 0.0;
      assert p * d > 0.0;
      assert p == amount * rate + p * d;
    }
  }

  // ---------------------------------------------------------------------------
  // The balance recurrence and its closed form

  /** One month multiplies the balance by `1 + rate` and subtracts the payment. */
  lemma BalanceRecurrence(amount: real, rate: real, payment: real, k: nat)
    ensures BalanceAfter(amount, rate, payment, k + 1)
         == BalanceAfter(amount, rate, payment, k) * (1.0 + rate) - payment
  {
  }

  /** The closed form multiplied through by the rate, so that it holds for
      every rate. */
  lemma {:induction false} ScaledClosedForm(amount: real, rate: real, payment: real, k: nat)
    ensures rate * BalanceAfter(amount, rate, payment, k)
         == rate * amount * Pow(1.0 + rate, k) - payment * (Pow(1.0 + rate, k) - 1.0)
  {
    if k == 0 {
      ClosedFormBase(rate, amount, payment, Pow(1.0 + rate, 0));
    } else {
      ScaledClosedForm(amount, rate, payment, k - 1);
      var b := BalanceAfter(amount, rate, payment, k - 1);
      var next := BalanceAfter(amount, rate, payment, k);
      assert next == b - (payment - Interest(b, rate));
      ClosedFormStep(rate, amount, payment, b, Pow(1.0 + rate, k - 1), next, Pow(1.0 + rate, k));
    }
  }

  /** For a non-zero rate the balance after `k` months is
      `amount * (1 + rate)^k - payment * ((1 + rate)^k - 1) / rate`. */
  lemma BalanceClosedForm(amount: real, rate: real, payment: real, k: nat)
    requires rate != 0.0
    ensures BalanceAfter(amount, rate, payment, k)
         == amount * Pow(1.0 + rate, k) - payment * (Pow(1.0 + rate, k) - 1.0) / rate
  {
    ScaledClosedForm(amount, rate, payment, k);
    DivideClosedForm(rate, amount, payment, BalanceAfter(amount, rate, payment, k), Pow(1.0 + rate, k));
  }

  /** With a positive term, the formula's payment `p` satisfies
      `p * ((1 + rate)^term - 1) == amount * rate * (1 + rate)^term`, and the rate
      is non-zero. */
  lemma PaymentIdentity(amount: real, rate: real, termMonths: int, payment: real)
    requires termMonths >= 1
    requires MonthlyPayment(amount, rate, termMonths) == Ok(payment)
    ensures rate != 0.0
    ensures payment * (Pow(1.0 + rate, termMonths) - 1.0) == amount * rate * Pow(1.0 + rate, termMonths)
  {
    if rate == 0.0 {
      PaymentDegenerateInputs(amount, rate, termMonths);
      assert false;
    }
    var d := IntPower(1.0 + rate, -termMonths).value;
    ClearDenominator(amount, rate, Pow(1.0 + rate, termMonths), d, payment);
  }

  /** Paying the formula's payment every month clears the loan exactly at the
      end of the term. */
  lemma PaidOffAtTerm(amount: real, rate: real, termMonths: int, payment: real)
    requires termMonths >= 1
    requires MonthlyPayment(amount, rate, termMonths) == Ok(payment)
    ensures rate != 0.0
    ensures BalanceAfter(amount, rate, payment, termMonths) == 0.0
  {
    PaymentIdentity(amount, rate, termMonths, payment);
    ScaledClosedForm(amount, rate, payment, termMonths);
    ZeroFactor(rate, BalanceAfter(amount, rate, payment, termMonths));
  }

  /** The principal repaid in month `k + 1` grows geometrically:
      `payment - rate * balance_k == (1 + rate)^k * (payment - rate * amount)`. */
  lemma {:induction false} PrincipalPortionGrowth(amount: real, rate: real, payment: real, k: nat)
    ensures payment - Interest(BalanceAfter(amount, rate, payment, k), rate)
         == Pow(1.0 + rate, k) * (payment - rate * amount)
  {
    if k == 0 {
      PortionBase(rate, amount, payment, Pow(1.0 + rate, 0));
    } else {
      PrincipalPortionGrowth(amount, rate, payment, k - 1);
      var b := BalanceAfter(amount, rate, payment, k - 1);
      var next := BalanceAfter(amount, rate, payment, k);
      assert next == b - (payment - Interest(b, rate));
      PortionStep(rate, amount, payment, b, Pow(1.0 + rate, k - 1), next, Pow(1.0 + rate, k));
    }
  }

  /** When the payment exceeds the interest on the original amount and the
      rate is non-negative, every month strictly reduces the balance. */
  lemma MonthReducesBalance(amount: real, rate: real, payment: real, k: nat)
    requires rate >= 0.0 && payment > rate * amount
    ensures BalanceAfter(amount, rate, payment, k + 1) < BalanceAfter(amount, rate, payment, k)
  {
    PrincipalPortionGrowth(amount, rate, payment, k);
    PowNonZero(1.0 + rate, k);
    ProductPositive(Pow(1.0 + rate, k), payment - rate * amount);
  }

  /** Under the same conditions the balance decreases strictly from month to
      month over any span. */
  lemma {:induction false} BalanceDecreases(amount: real, rate: real, payment: real, j: nat, k: nat)
    requires rate >= 0.0 && payment > rate * amount
    requires j <= k
    ensures BalanceAfter(amount, rate, payment, j) >= BalanceAfter(amount, rate, payment, k)
    ensures j < k ==> BalanceAfter(amount, rate, payment, j) > BalanceAfter(amount, rate, payment, k)
  {
    if j < k {
      BalanceDecreases(amount, rate, payment, j, k - 1);
      MonthReducesBalance(amount, rate, payment, k - 1);
    }
  }

  // ---------------------------------------------------------------------------
  // Accumulated totals

  /** What has been repaid plus what is still owed is always the amount
      borrowed. */
  lemma {:induction false} PrincipalPlusBalance(amount: real, rate: real, payment: real, k: nat)
    ensures PrincipalPaid(amount, rate, payment, k) + BalanceAfter(amount, rate, payment, k) == amount
  {
    if k > 0 {
      PrincipalPlusBalance(amount, rate, payment, k - 1);
    }
  }

  /** Every month's payment is split between principal and interest, so the
      two totals add up to `k` payments. */
  lemma {:induction false} PaymentsSplit(amount: real, rate: real, payment: real, k: nat)
    ensures PrincipalPaid(amount, rate, payment, k) + InterestPaid(amount, rate, payment, k)
         == k as real * payment
  {
    if k > 0 {
      PaymentsSplit(amount, rate, payment, k - 1);
    }
  }

  /** With a positive rate, interest accrues in every month before payoff. */
  lemma {:induction false} InterestAccrues(amount: real, rate: real, payment: real, termMonths: nat, k: nat)
    requires rate > 0.0 && payment > rate * amount
    requires BalanceAfter(amount, rate, payment, termMonths) == 0.0
    requires 1 <= k <= termMonths
    ensures InterestPaid(amount, rate, payment, k) > 0.0
  {
    var b := BalanceAfter(amount, rate, payment, k - 1);
    BalanceDecreases(amount, rate, payment, k - 1, termMonths);
    assert b * rate > 0.0;
    if k > 1 {
      InterestAccrues(amount, rate, payment, termMonths, k - 1);
    }
  }

  // ---------------------------------------------------------------------------
  // The schedule

  /** Row `i` of the first `k` rows is month `i + 1`, carrying the rounded
      balance after that month and the rounded payment. */
  lemma {:induction false} EntriesAt(amount: real, rate: real, payment: real, k: nat)
    ensures |Entries(amount, rate, payment, k)| == k
    ensures forall i :: 0 <= i < k ==>
      Entries(amount, rate, payment, k)[i]
        == ScheduleEntry(i + 1, Round2(BalanceAfter(amount, rate, payment, i + 1)), Round2(payment))
  {
    if k > 0 {
      EntriesAt(amount, rate, payment, k - 1);
    }
  }

  /** The schedule has one row per month of the term (none for a negative
      term). */
  lemma ScheduleLength(amount: real, annualPercent: real, termMonths: int, s: seq<ScheduleEntry>)
    requires Schedule(amount, annualPercent, termMonths) == Ok(s)
    ensures |s| == LoopCount(termMonths)
    ensures termMonths >= 0 ==> |s| == termMonths
  {
    var rate := MonthlyRate(annualPercent);
    EntriesAt(amount, rate, MonthlyPayment(amount, rate, termMonths).value, LoopCount(termMonths));
  }

  /** Rows are numbered 1, 2, ... in order, so the last row is the last month
      of the term. */
  lemma ScheduleMonths(amount: real, annualPercent: real, termMonths: int, s: seq<ScheduleEntry>)
    requires Schedule(amount, annualPercent, termMonths) == Ok(s)
    ensures forall i :: 0 <= i < |s| ==> s[i].month == i + 1
    ensures termMonths >= 1 ==> s[0].month == 1 && s[|s| - 1].month == termMonths
  {
    var rate := MonthlyRate(annualPercent);
    EntriesAt(amount, rate, MonthlyPayment(amount, rate, termMonths).value, LoopCount(termMonths));
  }

  /** Every row carries the same payment: the formula's, rounded to cents. */
  lemma SchedulePaymentConstant(amount: real, annualPercent: real, termMonths: int, payment: real, s: seq<ScheduleEntry>)
    requires MonthlyPayment(amount, MonthlyRate(annualPercent), termMonths) == Ok(payment)
    requires Schedule(amount, annualPercent, termMonths) == Ok(s)
    ensures forall i :: 0 <= i < |s| ==> s[i].monthlyPayment == Round2(payment)
    ensures forall i, j :: 0 <= i < |s| && 0 <= j < |s| ==> s[i].monthlyPayment == s[j].monthlyPayment
  {
    EntriesAt(amount, MonthlyRate(annualPercent), payment, LoopCount(termMonths));
  }

  /** Row `i` shows the balance after month `i + 1`, rounded to cents. */
  lemma ScheduleBalances(amount: real, annualPercent: real, termMonths: int, payment: real, s: seq<ScheduleEntry>)
    requires MonthlyPayment(amount, MonthlyRate(annualPercent), termMonths) == Ok(payment)
    requires Schedule(amount, annualPercent, termMonths) == Ok(s)
    ensures forall i :: 0 <= i < |s| ==>
      s[i].remainingBalance == Round2(BalanceAfter(amount, MonthlyRate(annualPercent), payment, i + 1))
  {
    EntriesAt(amount, MonthlyRate(annualPercent), payment, LoopCount(termMonths));
  }

  /** The last row of a successful schedule shows a zero balance. */
  lemma ScheduleEndsAtZero(amount: real, annualPercent: real, termMonths: int, s: seq<ScheduleEntry>)
    requires termMonths >= 1
    requires Schedule(amount, annualPercent, termMonths) == Ok(s)
    ensures |s| == termMonths
    ensures s[termMonths - 1].remainingBalance == 0.0
  {
    var rate := MonthlyRate(annualPercent);
    var payment := MonthlyPayment(amount, rate, termMonths).value;
    EntriesAt(amount, rate, payment, termMonths);
    PaidOffAtTerm(amount, rate, termMonths, payment);
    Round2OfCents(0.0);
  }

  /** A zero interest rate is not special-cased: both entry points fail with a
      division by zero (the summary only once the month is valid). */
  lemma ZeroRateFails(amount: real, termMonths: int, month: int)
    ensures Schedule(amount, 0.0, termMonths) == Err(ZeroDivisionError)
    ensures 1 <= month <= termMonths ==> Summary(amount, 0.0, termMonths, month) == Err(ZeroDivisionError)
  {
    PaymentDegenerateInputs(amount, MonthlyRate(0.0), termMonths);
  }

  // ---------------------------------------------------------------------------
  // The summary

  /** The summary fails with the month error exactly when the month lies
      outside `1..termMonths`, whatever the rate. */
  lemma SummaryInvalidMonth(amount: real, annualPercent: real, termMonths: int, month: int)
    ensures Summary(amount, annualPercent, termMonths, month) == Err(InvalidMonth)
        <==> month < 1 || month > termMonths
  {
  }

  /** A successful summary echoes the month, never reports a negative balance,
      and reports the balance as the amount less the principal repaid. */
  lemma SummaryFields(amount: real, annualPercent: real, termMonths: int, month: int, s: LoanSummary)
    requires Summary(amount, annualPercent, termMonths, month) == Ok(s)
    ensures 1 <= month <= termMonths
    ensures s.month == month
    ensures s.currentPrincipalBalance >= 0.0
    ensures s.currentPrincipalBalance == ClampAtZero(amount - s.totalPrincipalPaid)
  {
    var rate := MonthlyRate(annualPercent);
    PrincipalPlusBalance(amount, rate, MonthlyPayment(amount, rate, termMonths).value, month);
  }

  /** The totals of a successful summary add up to `month` payments. */
  lemma SummaryTotals(amount: real, annualPercent: real, termMonths: int, month: int, payment: real, s: LoanSummary)
    requires MonthlyPayment(amount, MonthlyRate(annualPercent), termMonths) == Ok(payment)
    requires Summary(amount, annualPercent, termMonths, month) == Ok(s)
    ensures s.totalPrincipalPaid + s.totalInterestPaid == month as real * payment
  {
    PaymentsSplit(amount, MonthlyRate(annualPercent), payment, month);
  }

  /** For a positive amount and rate every valid month yields a summary with
      positive principal and interest totals and an unclamped balance. */
  lemma PositiveLoanPaysBoth(amount: real, annualPercent: real, termMonths: int, month: int)
    requires amount > 0.0 && annualPercent > 0.0
    requires 1 <= month <= termMonths
    ensures Summary(amount, annualPercent, termMonths, month).Ok?
    ensures Summary(amount, annualPercent, termMonths, month).value.totalPrincipalPaid > 0.0
    ensures Summary(amount, annualPercent, termMonths, month).value.totalInterestPaid > 0.0
    ensures Summary(amount, annualPercent, termMonths, month).value.currentPrincipalBalance
         == amount - Summary(amount, annualPercent, termMonths, month).value.totalPrincipalPaid
  {
    var rate := MonthlyRate(annualPercent);
    PaymentCoversFirstInterest(amount, rate, termMonths);
    var payment := MonthlyPayment(amount, rate, termMonths).value;
    PaidOffAtTerm(amount, rate, termMonths, payment);
    BalanceDecreases(amount, rate, payment, month, termMonths);
    BalanceDecreases(amount, rate, payment, 0, month);
    PrincipalPlusBalance(amount, rate, payment, month);
    InterestAccrues(amount, rate, payment, termMonths, month);
  }

  // ---------------------------------------------------------------------------
  // Agreement between the two entry points

  /** For a valid month both entry points fail together, with the same
      error. */
  lemma ScheduleSummaryFailTogether(amount: real, annualPercent: real, termMonths: int, month: int)
    requires 1 <= month <= termMonths
    ensures Schedule(amount, annualPercent, termMonths).Err?
        <==> Summary(amount, annualPercent, termMonths, month).Err?
    ensures Schedule(amount, annualPercent, termMonths).Err? ==>
      Schedule(amount, annualPercent, termMonths).error
        == Summary(amount, annualPercent, termMonths, month).error
  {
  }

  /** For a valid month the schedule's row for that month is the rounding of
      the same unrounded balance that the summary clamps at zero. */
  lemma ScheduleSummaryAgree(amount: real, annualPercent: real, termMonths: int, month: int,
                             payment: real, s: seq<ScheduleEntry>, summary: LoanSummary)
    requires 1 <= month <= termMonths
    requires MonthlyPayment(amount, MonthlyRate(annualPercent), termMonths) == Ok(payment)
    requires Schedule(amount, annualPercent, termMonths) == Ok(s)
    requires Summary(amount, annualPercent, termMonths, month) == Ok(summary)
    ensures |s| == termMonths
    ensures s[month - 1].remainingBalance
         == Round2(BalanceAfter(amount, MonthlyRate(annualPercent), payment, month))
    ensures summary.currentPrincipalBalance
         == ClampAtZero(BalanceAfter(amount, MonthlyRate(annualPercent), payment, month))
  {
    EntriesAt(amount, MonthlyRate(annualPercent), payment, termMonths);
  }

  /** For a positive amount and rate the schedule's row and the summary for
      the same month differ by at most half a cent. */
  lemma ScheduleSummaryWithinRounding(amount: real, annualPercent: real, termMonths: int, month: int,
                                      s: seq<ScheduleEntry>, summary: LoanSummary)
    requires amount > 0.0 && annualPercent > 0.0
    requires 1 <= month <= termMonths
    requires Schedule(amount, annualPercent, termMonths) == Ok(s)
    requires Summary(amount, annualPercent, termMonths, month) == Ok(summary)
    ensures |s| == termMonths
    ensures -0.005 <= s[month - 1].remainingBalance - summary.currentPrincipalBalance <= 0.005
  {
    var rate := MonthlyRate(annualPercent);
    var payment := MonthlyPayment(amount, rate, termMonths).value;
    PositiveLoanPaysBoth(amount, annualPercent, termMonths, month);
    ScheduleSummaryAgree(amount, annualPercent, termMonths, month, payment, s, summary);
    PrincipalPlusBalance(amount, rate, payment, month);
  }

  // ---------------------------------------------------------------------------
  // The scenarios the repository's tests exercise

  /** 1000 at 5% over 12 months: twelve rows, months 1 to 12, last balance 0. */
  lemma ExampleSchedule()
    ensures Schedule(1000.0, 5.0, 12).Ok?
    ensures |Schedule(1000.0, 5.0, 12).value| == 12
    ensures Schedule(1000.0, 5.0, 12).value[0].month == 1
    ensures Schedule(1000.0, 5.0, 12).value[11].month == 12
    ensures Schedule(1000.0, 5.0, 12).value[11].remainingBalance == 0.0
  {
    PaymentCoversFirstInterest(1000.0, MonthlyRate(5.0), 12);
    var s := Schedule(1000.0, 5.0, 12).value;
    ScheduleMonths(1000.0, 5.0, 12, s);
    ScheduleEndsAtZero(1000.0, 5.0, 12, s);
  }

  /** 1000 at 5% over 12 months, month 6: a non-negative balance and positive
      totals; month 13 is refused. */
  lemma ExampleSummary()
    ensures Summary(1000.0, 5.0, 12, 6).Ok?
    ensures Summary(1000.0, 5.0, 12, 6).value.month == 6
    ensures Summary(1000.0, 5.0, 12, 6).value.currentPrincipalBalance >= 0.0
    ensures Summary(1000.0, 5.0, 12, 6).value.totalPrincipalPaid > 0.0
    ensures Summary(1000.0, 5.0, 12, 6).value.totalInterestPaid > 0.0
    ensures Summary(1000.0, 5.0, 12, 13) == Err(InvalidMonth)
    ensures InvalidMonth.statusCode == 400 && InvalidMonth.detail == "Invalid month requested"
  {
    PositiveLoanPaysBoth(1000.0, 5.0, 12, 6);
  }
}
