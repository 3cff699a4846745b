/**
 Runs in a row: what `resolveNextPayoutDate` of src/common/utils/payout-schedule.utils.ts
 answers when it is asked again from each run, and from two starts.
 */
module PayoutRuns {
  import opened PayoutCalendar

  // ----- asking again

  function Iterate(f: int -> int, x: int, k: nat): int {
    if k == 0 then x else f(Iterate(f, x, k - 1))
  }

  lemma {:induction false} IterateShift(f: int -> int, x: int, k: nat)
    ensures Iterate(f, f(x), k) == Iterate(f, x, k + 1)
  {
    assert Iterate(f, x, k + 1) == f(Iterate(f, x, k));
    if k > 0 {
      IterateShift(f, x, k - 1);
    }
  }

  /** From one run to the next. */
  function NextRun(token: DayToken, stepMonths: int): int -> int
    requires Cadence(stepMonths)
  {
    (day: int) => Search(day, token, stepMonths, 0)
  }

  /** The dates of a schedule are the same seen from any of its runs. */
  lemma SameSchedule(today: int, run: int, token: DayToken, stepMonths: int, n: int)
    requires Cadence(stepMonths) && Eligible(today, token, stepMonths, run) && run < n
    ensures Eligible(run, token, stepMonths, n) <==> Eligible(today, token, stepMonths, n)
  {
    var j: nat :| MonthNumber(run) == StepMonth(today, stepMonths, j);
    if Eligible(run, token, stepMonths, n) {
      var k: nat :| MonthNumber(n) == StepMonth(run, stepMonths, k);
      assert MonthNumber(n) == StepMonth(today, stepMonths, j + k);
    }
    if Eligible(today, token, stepMonths, n) {
      var k: nat :| MonthNumber(n) == StepMonth(today, stepMonths, k);
      MonthNumberGrows(run, n);
      assert MonthNumber(n) == StepMonth(run, stepMonths, k - j);
    }
  }

  /** Asking again from each run gives later and later dates of the schedule. */
  lemma {:induction false} RunsStayOnSchedule(today: int, token: DayToken, stepMonths: int, k: nat)
    requires token.Valid() && Cadence(stepMonths) && Year(today) >= 100 && k > 0
    ensures Eligible(today, token, stepMonths, Iterate(NextRun(token, stepMonths), today, k))
    ensures Iterate(NextRun(token, stepMonths), today, k - 1) < Iterate(NextRun(token, stepMonths), today, k)
  {
    var f := NextRun(token, stepMonths);
    var last := Iterate(f, today, k - 1);
    if k > 1 {
      RunsStayOnSchedule(today, token, stepMonths, k - 1);
      MonthNumberGrows(today, last);
    }
    NextOccurrenceExact(last, token, stepMonths);
    if k > 1 {
      SameSchedule(today, last, token, stepMonths, f(last));
    }
  }

  /** And it visits every date of the schedule. */
  lemma {:induction false} RunsSkipNothing(today: int, token: DayToken, stepMonths: int, n: int) returns (k: nat)
    requires token.Valid() && Cadence(stepMonths) && Year(today) >= 100
    requires Eligible(today, token, stepMonths, n)
    ensures k > 0 && Iterate(NextRun(token, stepMonths), today, k) == n
    decreases n - today
  {
    var f := NextRun(token, stepMonths);
    NextOccurrenceExact(today, token, stepMonths);
    if f(today) < n {
      MonthNumberGrows(today, f(today));
      SameSchedule(today, f(today), token, stepMonths, n);
      var k' := RunsSkipNothing(f(today), token, stepMonths, n);
      IterateShift(f, today, k');
      k := k' + 1;
    } else {
      k := 1;
      assert Iterate(f, today, 0) == today;
    }
  }

  // ----- quarterly runs from two starts

  /** The first month long enough, going on by quarters. */
  function FittingMonth(month: int, token: DayToken): int {
    if Fits(month, token) then month else if Fits(month + 3, token) then month + 3 else month + 6
  }

  /** The month of the token is over, or has no such day. */
  predicate Passed(today: int, token: DayToken) {
    Fits(MonthNumber(today), token) ==> DateIn(MonthNumber(today), token) <= today
  }

  /** The month of the next quarterly run, told from the lengths of the months. */
  function RunMonth(today: int, token: DayToken): int {
    if Passed(today, token) then FittingMonth(MonthNumber(today) + 3, token) else MonthNumber(today)
  }

  lemma FittingMonthFits(month: int, token: DayToken)
    requires token.Valid()
    ensures Fits(FittingMonth(month, token), token)
  {
    var k := SomeMonthFits(month - 3, token, 3);
  }

  /** From the second step on the search looks at nothing but the length of the month. */
  lemma QuarterlyStep(today: int, token: DayToken, step: nat, month: int)
    requires token.Valid() && !(0 <= Year(today) <= 99) && step <= 3 && month == MonthNumber(today) + 3 * step
    ensures var runs := Fits(month, token) && (step == 0 ==> DateIn(month, token) > today);
            Search(today, token, 3, step) == if runs then DateIn(month, token) else Search(today, token, 3, step + 1)
  {
    SearchStep(today, token, 3, step);
    CandidateIsDate(today, token, 3 * step);
    if step > 0 {
      LaterMonthIsLater(today, token, 3 * step);
    }
  }

  /** From step 1 on the search ends with the first month long enough. */
  lemma QuarterlyRest(today: int, token: DayToken, month: int)
    requires token.Valid() && !(0 <= Year(today) <= 99) && month == MonthNumber(today) + 3
    requires Fits(FittingMonth(month, token), token)
    ensures Search(today, token, 3, 1) == DateIn(FittingMonth(month, token), token)
  {
    QuarterlyStep(today, token, 1, month);
    if !Fits(month, token) {
      QuarterlyStep(today, token, 2, month + 3);
    }
    if !Fits(month, token) && !Fits(month + 3, token) {
      QuarterlyStep(today, token, 3, month + 6);
    }
  }

  lemma QuarterlyRun(today: int, token: DayToken)
    requires token.Valid() && !(0 <= Year(today) <= 99)
    ensures Fits(RunMonth(today, token), token)
    ensures Search(today, token, 3, 0) == DateIn(RunMonth(today, token), token)
  {
    QuarterlyStep(today, token, 0, MonthNumber(today));
    if Passed(today, token) {
      FittingMonthFits(MonthNumber(today) + 3, token);
      QuarterlyRest(today, token, MonthNumber(today) + 3);
    }
  }

  lemma DatesInOrder(a: int, b: int, token: DayToken)
    requires token.Valid() && Fits(a, token) && Fits(b, token)
    ensures DateIn(a, token) <= DateIn(b, token) <==> a <= b
  {
    if a < b {
      MonthStartGrows(a, b);
    } else if b < a {
      MonthStartGrows(b, a);
    }
  }

  /** Two starts have their quarterly runs in the order of the months of the runs. */
  lemma QuarterlyOrderExact(from1: int, from2: int, token: DayToken)
    requires token.Valid() && !(0 <= Year(from1) <= 99) && !(0 <= Year(from2) <= 99)
    ensures Search(from1, token, 3, 0) <= Search(from2, token, 3, 0)
       <==> RunMonth(from1, token) <= RunMonth(from2, token)
  {
    QuarterlyRun(from1, token);
    QuarterlyRun(from2, token);
    DatesInOrder(RunMonth(from1, token), RunMonth(from2, token), token);
  }

  /** For a day that every month has, a later start has an earlier quarterly run exactly when
      it lies one or two months on, before the day of its month, and the day of the month of
      the earlier start is over. */
  lemma QuarterlyMonotoneExact(from1: int, from2: int, token: DayToken)
    requires token.Valid() && (token.Nth? ==> token.day <= 28) && from1 <= from2
    requires !(0 <= Year(from1) <= 99) && !(0 <= Year(from2) <= 99)
    ensures Search(from1, token, 3, 0) <= Search(from2, token, 3, 0)
       <==> !(&& Passed(from1, token) && !Passed(from2, token)
              && 0 < MonthNumber(from2) - MonthNumber(from1) < 3)
  {
    QuarterlyOrderExact(from1, from2, token);
    MonthNumberGrows(from1, from2);
  }

  lemma FittingMonthIsFirst(month: int, token: DayToken, k: nat)
    requires token.Valid() && Fits(month + 3 * k, token)
    ensures FittingMonth(month, token) <= month + 3 * k
  {
  }

  lemma RunMonthInClass(today: int, token: DayToken) returns (k: nat)
    ensures RunMonth(today, token) == MonthNumber(today) + 3 * k
  {
    k := (RunMonth(today, token) - MonthNumber(today)) / 3;
  }

  lemma Quarters(a: int, b: int) returns (q: nat)
    requires a <= b && (b - a) % 3 == 0
    ensures b == a + 3 * q
  {
    q := (b - a) / 3;
  }

  lemma LaterInMonth(from1: int, from2: int, token: DayToken)
    requires token.Valid() && from1 <= from2 && MonthNumber(from1) == MonthNumber(from2)
    ensures RunMonth(from1, token) <= RunMonth(from2, token)
  {
  }

  lemma LaterInClass(from1: int, from2: int, token: DayToken, q: nat, k: nat)
    requires token.Valid() && q > 0 && MonthNumber(from2) == MonthNumber(from1) + 3 * q
    requires RunMonth(from2, token) == MonthNumber(from2) + 3 * k && Fits(RunMonth(from2, token), token)
    ensures RunMonth(from1, token) <= RunMonth(from2, token)
  {
    FittingMonthIsFirst(MonthNumber(from1) + 3, token, q - 1 + k);
  }

  lemma RunMonthsInClass(from1: int, from2: int, token: DayToken, q: nat)
    requires token.Valid() && from1 <= from2 && MonthNumber(from2) == MonthNumber(from1) + 3 * q
    requires Fits(RunMonth(from2, token), token)
    ensures RunMonth(from1, token) <= RunMonth(from2, token)
  {
    if q > 0 {
      var k := RunMonthInClass(from2, token);
      LaterInClass(from1, from2, token, q, k);
    } else {
      LaterInMonth(from1, from2, token);
    }
  }

  /** Within one class of months quarterly runs are monotone, for every day. */
  lemma QuarterlyMonotoneInClass(from1: int, from2: int, token: DayToken)
    requires token.Valid() && from1 <= from2 && (MonthNumber(from2) - MonthNumber(from1)) % 3 == 0
    requires !(0 <= Year(from1) <= 99) && !(0 <= Year(from2) <= 99)
    ensures Search(from1, token, 3, 0) <= Search(from2, token, 3, 0)
  {
    MonthNumberGrows(from1, from2);
    var q := Quarters(MonthNumber(from1), MonthNumber(from2));
    QuarterlyRun(from2, token);
    RunMonthsInClass(from1, from2, token, q);
    QuarterlyOrderExact(from1, from2, token);
  }

  /** In every year: on January 15 the next quarterly 10th is in April, on February 1 it is
      in February. */
  lemma QuarterlyIsNotMonotone(year: int)
    requires year >= 100
    ensures var january15, february1 := MakeDay(year, 0, 15), MakeDay(year, 1, 1);
            && january15 < february1
            && Search(january15, Nth(10), 3, 0) > Search(february1, Nth(10), 3, 0)
  {
    var january15, february1 := MakeDay(year, 0, 15), MakeDay(year, 1, 1);
    DayRoundTrip(year, 0, 15);
    DayRoundTrip(year, 1, 1);
    MonthIsUnique(january15, 12 * year);
    MonthIsUnique(february1, 12 * year + 1);
    NextMonthStart(12 * year);
    QuarterlyMonotoneExact(january15, february1, Nth(10));
  }
}
