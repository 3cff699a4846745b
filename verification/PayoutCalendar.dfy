/**
 The payout calendar of src/common/utils/payout-schedule.utils.ts.

 A date is the number of days since 1970-01-01 (the time value of a Date at midnight UTC
 divided by the length of a day).  The conversions to and from year, month and day are
 those of section 21.4.1 of ECMA-262.  Months are counted through: January of year y is
 month 12 * y.
 */
module PayoutCalendar {
  // ----- the proleptic Gregorian calendar

  predicate LeapYear(y: int) {
    y % 4 == 0 && (y % 100 != 0 || y % 400 == 0)
  }

  function MonthLength(month: int): (days: int)
    ensures 28 <= days <= 31
  {
    var m := month % 12;
    if m == 1 then (if LeapYear(month / 12) then 29 else 28)
    else if m == 3 || m == 5 || m == 8 || m == 10 then 30
    else 31
  }

  const JANUARY_1970 := 23640

  /** The day number of the first of a month: the months since January 1970 laid end to
      end, backwards for earlier ones. */
  function MonthStart(month: int): int
    decreases if month < JANUARY_1970 then JANUARY_1970 - month else month - JANUARY_1970
  {
    if month == JANUARY_1970 then 0
    else if month > JANUARY_1970 then MonthStart(month - 1) + MonthLength(month - 1)
    else MonthStart(month + 1) - MonthLength(month)
  }

  lemma NextMonthStart(month: int)
    ensures MonthStart(month + 1) == MonthStart(month) + MonthLength(month)
  {
  }

  lemma {:induction false} MonthStartGrows(a: int, b: int)
    requires a < b
    ensures MonthStart(a) + MonthLength(a) <= MonthStart(b)
    decreases b - a
  {
    NextMonthStart(a);
    if a + 1 < b {
      MonthStartGrows(a + 1, b);
    }
  }

  // ----- from a day number to year, month and day

  /** How many days `day` lies outside a month. */
  function Distance(day: int, month: int): nat {
    var start, end := MonthStart(month), MonthStart(month + 1);
    if day < start then start - day else if day >= end then day - end + 1 else 0
  }

  /** The month whose first day is the last one not after `day`. */
  function MonthFrom(day: int, guess: int): (month: int)
    ensures MonthStart(month) <= day < MonthStart(month + 1)
    decreases Distance(day, guess)
  {
    if day < MonthStart(guess) then
      MonthFrom(day, guess - 1)
    else if day >= MonthStart(guess + 1) then
      MonthFrom(day, guess + 1)
    else guess
  }

  function MonthNumber(day: int): int {
    MonthFrom(day, JANUARY_1970)
  }

  /** `getUTCFullYear` */
  function Year(day: int): int {
    MonthNumber(day) / 12
  }

  /** `getUTCMonth` */
  function Month(day: int): int {
    MonthNumber(day) % 12
  }

  /** `getUTCDate` */
  function DayOfMonth(day: int): int {
    day - MonthStart(MonthNumber(day)) + 1
  }

  lemma InItsMonth(day: int)
    ensures 1 <= DayOfMonth(day) <= MonthLength(MonthNumber(day))
    ensures MonthStart(MonthNumber(day)) <= day < MonthStart(MonthNumber(day) + 1)
  {
    NextMonthStart(MonthNumber(day));
  }

  /** A date lies in exactly one month. */
  lemma MonthIsUnique(day: int, month: int)
    requires MonthStart(month) <= day < MonthStart(month) + MonthLength(month)
    ensures MonthNumber(day) == month
    ensures DayOfMonth(day) == day - MonthStart(month) + 1
  {
    InItsMonth(day);
    NextMonthStart(MonthNumber(day));
    if month < MonthNumber(day) {
      MonthStartGrows(month, MonthNumber(day));
    } else if MonthNumber(day) < month {
      MonthStartGrows(MonthNumber(day), month);
    }
  }

  lemma MonthNumberGrows(a: int, b: int)
    requires a <= b
    ensures MonthNumber(a) <= MonthNumber(b)
  {
    InItsMonth(a);
    InItsMonth(b);
    if MonthNumber(b) < MonthNumber(a) {
      NextMonthStart(MonthNumber(b));
      MonthStartGrows(MonthNumber(b), MonthNumber(a));
    }
  }

  // ----- agreement with the formulas of ECMA-262

  /** DayFromYear */
  function DayFromYear(y: int): int {
    365 * (y - 1970) + (y - 1969) / 4 - (y - 1901) / 100 + (y - 1601) / 400
  }

  /** DayWithinYear at the start of month `m` */
  function DaysBefore(m: int, leap: bool): int
    requires 0 <= m <= 12
  {
    (if m == 0 then 0 else if m == 1 then 31 else if m == 2 then 59 else if m == 3 then 90
     else if m == 4 then 120 else if m == 5 then 151 else if m == 6 then 181 else if m == 7 then 212
     else if m == 8 then 243 else if m == 9 then 273 else if m == 10 then 304 else if m == 11 then 334 else 365)
    + (if leap && m >= 2 then 1 else 0)
  }

  lemma YearLength(y: int)
    ensures DayFromYear(y + 1) == DayFromYear(y) + DaysBefore(12, LeapYear(y))
  {
    Quarter(y);
    Century(y);
    FourCenturies(y);
    CenturiesAreQuarters(y);
  }

  lemma Quarter(y: int)
    ensures (y + 1 - 1969) / 4 == (y - 1969) / 4 + (if y % 4 == 0 then 1 else 0)
  {
  }

  lemma Century(y: int)
    ensures (y + 1 - 1901) / 100 == (y - 1901) / 100 + (if y % 100 == 0 then 1 else 0)
  {
  }

  lemma FourCenturies(y: int)
    ensures (y + 1 - 1601) / 400 == (y - 1601) / 400 + (if y % 400 == 0 then 1 else 0)
  {
  }

  lemma CenturiesAreQuarters(y: int)
    ensures y % 400 == 0 ==> y % 100 == 0
    ensures y % 100 == 0 ==> y % 4 == 0
  {
  }

  function EcmaMonthStart(month: int): int {
    DayFromYear(month / 12) + DaysBefore(month % 12, LeapYear(month / 12))
  }

  lemma EcmaStep(month: int)
    ensures EcmaMonthStart(month + 1) == EcmaMonthStart(month) + MonthLength(month)
  {
    var y, m := month / 12, month % 12;
    if m == 11 {
      assert (month + 1) / 12 == y + 1 && (month + 1) % 12 == 0;
      YearLength(y);
    } else {
      assert (month + 1) / 12 == y && (month + 1) % 12 == m + 1;
    }
  }

  lemma {:induction false} MonthStartUnique(f: int -> int, month: int)
    requires f(JANUARY_1970) == 0
    requires forall m :: f(m + 1) == f(m) + MonthLength(m)
    ensures MonthStart(month) == f(month)
    decreases if month < JANUARY_1970 then JANUARY_1970 - month else month - JANUARY_1970
  {
    if month > JANUARY_1970 {
      MonthStartUnique(f, month - 1);
      assert f(month - 1 + 1) == f(month - 1) + MonthLength(month - 1);
    } else if month < JANUARY_1970 {
      MonthStartUnique(f, month + 1);
      assert f(month + 1) == f(month) + MonthLength(month);
    }
  }

  /** Laying months end to end gives DayFromYear plus DayWithinYear. */
  lemma MonthStartFormula(month: int)
    ensures MonthStart(month) == EcmaMonthStart(month)
  {
    var f := (m: int) => EcmaMonthStart(m);
    forall m
      ensures f(m + 1) == f(m) + MonthLength(m)
    {
      EcmaStep(m);
    }
    MonthStartUnique(f, month);
  }

  /** The year found by the month search is that of YearFromTime, the year whose first day
      is the last January 1 not after the date. */
  lemma YearFromTime(day: int)
    ensures DayFromYear(Year(day)) <= day < DayFromYear(Year(day) + 1)
  {
    InItsMonth(day);
    YearStart(Year(day));
    YearStart(Year(day) + 1);
    AfterMonth(12 * Year(day), MonthNumber(day));
    AfterMonth(MonthNumber(day) + 1, 12 * (Year(day) + 1));
  }

  lemma AfterMonth(a: int, b: int)
    requires a <= b
    ensures MonthStart(a) <= MonthStart(b)
  {
    if a < b {
      MonthStartGrows(a, b);
    }
  }

  lemma YearStart(y: int)
    ensures MonthStart(12 * y) == DayFromYear(y)
  {
    MonthStartFormula(12 * y);
    assert 12 * y / 12 == y && 12 * y % 12 == 0;
  }

  // ----- from year, month and day to a day number

  /** MakeDay: a month or a day outside its range carries over. */
  function MakeDay(year: int, month: int, date: int): int {
    MonthStart(12 * year + month) + date - 1
  }

  /** `Date.UTC`: the years 0 to 99 stand for 1900 to 1999. */
  function DateUTC(year: int, month: int, date: int): int {
    MakeDay(FullYear(year), month, date)
  }

  function FullYear(year: int): int {
    if 0 <= year <= 99 then 1900 + year else year
  }

  /** The fields of a date name it; passing them through `Date.UTC` gives the date back
      except in the remapped years. */
  lemma CivilRoundTrip(day: int)
    ensures MakeDay(Year(day), Month(day), DayOfMonth(day)) == day
    ensures DateUTC(Year(day), Month(day), DayOfMonth(day)) == day <==> !(0 <= Year(day) <= 99)
  {
    var y, month, date := Year(day), MonthNumber(day), DayOfMonth(day);
    assert 12 * y + Month(day) == month;
    if 0 <= y <= 99 {
      RemapMoves(month, date);
      assert 12 * FullYear(y) + Month(day) == month + 12 * 1900;
    }
  }

  lemma RemapMoves(month: int, date: int)
    ensures MonthStart(month + 12 * 1900) + date - 1 > MonthStart(month) + date - 1
  {
    MonthStartGrows(month, month + 12 * 1900);
  }

  lemma DayRoundTrip(year: int, month: int, date: int)
    requires 0 <= month < 12 && 1 <= date <= MonthLength(12 * year + month)
    ensures var day := MakeDay(year, month, date);
            Year(day) == year && Month(day) == month && DayOfMonth(day) == date
  {
    MonthIsUnique(MakeDay(year, month, date), 12 * year + month);
  }

  /** `getUTCDate() !== day` exactly when the month is too short. */
  lemma OverflowIffShort(month: int, date: int)
    requires 1 <= date <= 31
    ensures DayOfMonth(MonthStart(month) + date - 1) == date <==> date <= MonthLength(month)
  {
    var day := MonthStart(month) + date - 1;
    if date <= MonthLength(month) {
      MonthIsUnique(day, month);
    } else {
      NextMonthStart(month);
      NextMonthStart(month + 1);
      MonthIsUnique(day, month + 1);
    }
  }

  // ----- the search

  datatype DayToken = Nth(day: int) | Last {
    predicate Valid() {
      Nth? ==> 1 <= day <= 31
    }
  }

  /** The two steps the schedules use: every month and every third month. */
  predicate Cadence(stepMonths: int) {
    stepMonths == 1 || stepMonths == 3
  }

  /** `step * stepMonths` */
  function MonthsAhead(step: nat, stepMonths: int): int
    requires Cadence(stepMonths)
  {
    if stepMonths == 1 then step else 3 * step
  }

  function Candidate(today: int, token: DayToken, months: int): int {
    match token
    case Last => DateUTC(Year(today), Month(today) + months + 1, 0)
    case Nth(day) => DateUTC(Year(today), Month(today) + months, day)
  }

  predicate Accepts(today: int, token: DayToken, candidate: int) {
    (token.Nth? ==> DayOfMonth(candidate) == token.day) && candidate > today
  }

  function Search(today: int, token: DayToken, stepMonths: int, step: nat): int
    requires Cadence(stepMonths) && step <= 25
    decreases 25 - step, today
  {
    if step == 25 then DateUTC(Year(today), Month(today) + stepMonths, 1)
    else
      var candidate := Candidate(today, token, MonthsAhead(step, stepMonths));
      if Accepts(today, token, candidate) then candidate else Search(today, token, stepMonths, step + 1)
  }

  lemma SearchStep(today: int, token: DayToken, stepMonths: int, step: nat)
    requires Cadence(stepMonths) && step < 25
    ensures var candidate := Candidate(today, token, MonthsAhead(step, stepMonths));
            Search(today, token, stepMonths, step)
            == if Accepts(today, token, candidate) then candidate else Search(today, token, stepMonths, step + 1)
  {
  }

  lemma MonthIndex(today: int, token: DayToken, stepMonths: int, step: nat, monthIndex: int)
    requires Cadence(stepMonths) && monthIndex == Month(today) + step * stepMonths
    ensures Candidate(today, token, MonthsAhead(step, stepMonths))
         == if token.Last? then DateUTC(Year(today), monthIndex + 1, 0) else DateUTC(Year(today), monthIndex, token.day)
  {
    assert step * stepMonths == MonthsAhead(step, stepMonths);
  }

  method NextMonthlyOccurrence(today: int, day: DayToken, stepMonths: int) returns (result: int)
    requires Cadence(stepMonths)
    ensures result == Search(today, day, stepMonths, 0)
  {
    for step := 0 to 25
      invariant Search(today, day, stepMonths, 0) == Search(today, day, stepMonths, step)
    {
      var monthIndex := Month(today) + step * stepMonths;
      SearchStep(today, day, stepMonths, step);
      MonthIndex(today, day, stepMonths, step, monthIndex);
      if day == Last {
        var candidate := DateUTC(Year(today), monthIndex + 1, 0);
        if candidate > today {
          return candidate;
        }
        continue;
      }
      var candidate := DateUTC(Year(today), monthIndex, day.day);
      var overflowed := DayOfMonth(candidate) != day.day;
      if !overflowed && candidate > today {
        return candidate;
      }
    }
    return DateUTC(Year(today), Month(today) + stepMonths, 1);
  }

  // ----- what the search finds

  /** The calendar of a token: every month long enough has one date, its d-th or last. */
  predicate OnCalendar(token: DayToken, day: int) {
    DayOfMonth(day) == if token.Last? then MonthLength(MonthNumber(day)) else token.day
  }

  /** `result` is the first date after `today` on the calendar of the token, counting only
      every `stepMonths`-th month from the current one. */
  ghost predicate IsNext(today: int, token: DayToken, stepMonths: int, result: int)
    requires Cadence(stepMonths)
  {
    && Eligible(today, token, stepMonths, result)
    && forall n :: today < n < result ==> !Eligible(today, token, stepMonths, n)
  }

  ghost predicate Eligible(today: int, token: DayToken, stepMonths: int, n: int)
    requires Cadence(stepMonths)
  {
    today < n && OnCalendar(token, n) && exists k: nat :: MonthNumber(n) == StepMonth(today, stepMonths, k)
  }

  /** The month `k` steps on from the current one. */
  function StepMonth(today: int, stepMonths: int, k: nat): int
    requires Cadence(stepMonths)
  {
    MonthNumber(today) + MonthsAhead(k, stepMonths)
  }

  /** The date of a token in a month that has one. */
  function DateIn(month: int, token: DayToken): int {
    MonthStart(month) + (if token.Last? then MonthLength(month) else token.day) - 1
  }

  predicate Fits(month: int, token: DayToken) {
    token.Nth? ==> token.day <= MonthLength(month)
  }

  lemma CalendarDates(token: DayToken, n: int, month: int)
    requires token.Valid()
    ensures Fits(month, token) ==> MonthNumber(DateIn(month, token)) == month && OnCalendar(token, DateIn(month, token))
    ensures OnCalendar(token, n) && MonthNumber(n) == month ==> n == DateIn(month, token) && Fits(month, token)
  {
    if Fits(month, token) {
      MonthIsUnique(DateIn(month, token), month);
    }
    InItsMonth(n);
  }

  /** Away from the remapped years the code accepts exactly the eligible date of a month. */
  lemma CandidateIsDate(today: int, token: DayToken, months: int)
    requires token.Valid() && !(0 <= Year(today) <= 99)
    ensures var month := MonthNumber(today) + months;
            && Candidate(today, token, months) == DateIn(month, token)
            && (Accepts(today, token, Candidate(today, token, months))
                <==> Fits(month, token) && DateIn(month, token) > today)
  {
    var month := MonthNumber(today) + months;
    match token
    case Last =>
      NextMonthStart(month);
    case Nth(day) =>
      OverflowIffShort(month, day);
  }

  /** Every third month from any month on is long enough at least once in a year, and of two
      neighbouring months one has 31 days. */
  lemma SomeMonthFits(month: int, token: DayToken, stepMonths: int) returns (k: nat)
    requires token.Valid() && Cadence(stepMonths)
    ensures 1 <= k <= (if stepMonths == 1 then 2 else 3)
    ensures Fits(month + MonthsAhead(k, stepMonths), token)
  {
    var m := month % 12;
    if stepMonths == 1 {
      k := if m == 0 || m == 2 || m == 4 || m == 7 || m == 9 then 2 else 1;
    } else {
      k := if m == 2 || m == 7 then 3 else if m == 0 || m == 5 || m == 10 then 2 else 1;
    }
    assert (month + MonthsAhead(k, stepMonths)) % 12 == (m + MonthsAhead(k, stepMonths)) % 12;
  }

  lemma {:induction false} SearchFrom(today: int, token: DayToken, stepMonths: int, step: nat, k: nat)
    requires token.Valid() && Cadence(stepMonths) && !(0 <= Year(today) <= 99)
    requires step <= k <= 24 && Fits(MonthNumber(today) + MonthsAhead(k, stepMonths), token) && k > 0
    requires forall j: nat :: j < step ==> !Accepts(today, token, Candidate(today, token, MonthsAhead(j, stepMonths)))
    ensures exists j: nat :: step <= j <= k && FoundAt(today, token, stepMonths, j)
    decreases k - step
  {
    CandidateIsDate(today, token, MonthsAhead(step, stepMonths));
    if Accepts(today, token, Candidate(today, token, MonthsAhead(step, stepMonths))) {
      SearchReaches(today, token, stepMonths, step);
      assert FoundAt(today, token, stepMonths, step);
    } else if step < k {
      SearchFrom(today, token, stepMonths, step + 1, k);
    } else {
      LaterMonthIsLater(today, token, MonthsAhead(k, stepMonths));
      assert false;
    }
  }

  /** The search stops at step `j`, the first one it accepts. */
  ghost predicate FoundAt(today: int, token: DayToken, stepMonths: int, j: nat)
    requires Cadence(stepMonths)
  {
    && Search(today, token, stepMonths, 0) == Candidate(today, token, MonthsAhead(j, stepMonths))
    && Accepts(today, token, Candidate(today, token, MonthsAhead(j, stepMonths)))
    && forall i: nat :: i < j ==> !Accepts(today, token, Candidate(today, token, MonthsAhead(i, stepMonths)))
  }

  lemma LaterMonthIsLater(today: int, token: DayToken, months: int)
    requires token.Valid() && months > 0
    ensures DateIn(MonthNumber(today) + months, token) > today
  {
    InItsMonth(today);
    NextMonthStart(MonthNumber(today));
    MonthStartGrows(MonthNumber(today), MonthNumber(today) + months);
  }

  lemma SearchReaches(today: int, token: DayToken, stepMonths: int, step: nat)
    requires Cadence(stepMonths) && step <= 25
    requires forall j: nat :: j < step ==> !Accepts(today, token, Candidate(today, token, MonthsAhead(j, stepMonths)))
    ensures Search(today, token, stepMonths, 0) == Search(today, token, stepMonths, step)
  {
    for i := 0 to step
      invariant Search(today, token, stepMonths, 0) == Search(today, token, stepMonths, i)
    {
    }
  }

  lemma StepsGrow(today: int, stepMonths: int, j: nat, k: nat)
    requires Cadence(stepMonths)
    ensures j < k ==> StepMonth(today, stepMonths, j) < StepMonth(today, stepMonths, k)
  {
  }

  /** What the first accepted step yields is the next date of the token. */
  lemma FoundIsNext(today: int, token: DayToken, stepMonths: int, j: nat)
    requires token.Valid() && Cadence(stepMonths) && !(0 <= Year(today) <= 99)
    requires FoundAt(today, token, stepMonths, j)
    ensures IsNext(today, token, stepMonths, Search(today, token, stepMonths, 0))
  {
    var result, month := Search(today, token, stepMonths, 0), StepMonth(today, stepMonths, j);
    CandidateIsDate(today, token, MonthsAhead(j, stepMonths));
    assert result == DateIn(month, token) && Fits(month, token) && result > today;
    CalendarDates(token, result, month);
    forall n | today < n < result
      ensures !Eligible(today, token, stepMonths, n)
    {
      if Eligible(today, token, stepMonths, n) {
        var k: nat :| MonthNumber(n) == StepMonth(today, stepMonths, k);
        NothingBefore(today, token, stepMonths, j, n, k);
      }
    }
  }

  lemma NothingBefore(today: int, token: DayToken, stepMonths: int, j: nat, n: int, k: nat)
    requires token.Valid() && Cadence(stepMonths) && !(0 <= Year(today) <= 99)
    requires FoundAt(today, token, stepMonths, j)
    requires n > today && OnCalendar(token, n) && MonthNumber(n) == StepMonth(today, stepMonths, k)
    ensures n >= Search(today, token, stepMonths, 0)
  {
    CalendarDates(token, n, MonthNumber(n));
    if k < j {
      CandidateIsDate(today, token, MonthsAhead(k, stepMonths));
    } else {
      CandidateIsDate(today, token, MonthsAhead(j, stepMonths));
      DatesGrow(today, token, stepMonths, j, k);
      assert Search(today, token, stepMonths, 0) == DateIn(StepMonth(today, stepMonths, j), token);
    }
  }

  lemma DatesGrow(today: int, token: DayToken, stepMonths: int, j: nat, k: nat)
    requires token.Valid() && Cadence(stepMonths) && j <= k
    requires Fits(StepMonth(today, stepMonths, j), token)
    ensures DateIn(StepMonth(today, stepMonths, j), token) <= DateIn(StepMonth(today, stepMonths, k), token)
  {
    StepsGrow(today, stepMonths, j, k);
    if j < k {
      MonthStartGrows(StepMonth(today, stepMonths, j), StepMonth(today, stepMonths, k));
    }
  }

  /** The search succeeds by step 2 for monthly and by step 3 for quarterly runs, so the
      statement after the loop is never reached. */
  lemma FallbackUnreachable(today: int, token: DayToken, stepMonths: int) returns (j: nat)
    requires token.Valid() && Cadence(stepMonths) && !(0 <= Year(today) <= 99)
    ensures j <= (if stepMonths == 1 then 2 else 3)
    ensures FoundAt(today, token, stepMonths, j)
  {
    var k := SomeMonthFits(MonthNumber(today), token, stepMonths);
    SearchFrom(today, token, stepMonths, 0, k);
    j :| j <= k && FoundAt(today, token, stepMonths, j);
  }

  /** The search finds the next date of the schedule from every date outside the years that
      `Date.UTC` takes for the twentieth century -- and from no date inside them. */
  lemma NextOccurrenceExact(today: int, token: DayToken, stepMonths: int)
    requires token.Valid() && Cadence(stepMonths)
    ensures IsNext(today, token, stepMonths, Search(today, token, stepMonths, 0)) <==> !(0 <= Year(today) <= 99)
  {
    if 0 <= Year(today) <= 99 {
      RemappedIsLate(today, token, stepMonths);
    } else {
      var j := FallbackUnreachable(today, token, stepMonths);
      FoundIsNext(today, token, stepMonths, j);
    }
  }

  /** Some date of the schedule comes within nine months, long before 1900 years have passed. */
  lemma EarlyDate(today: int, token: DayToken, stepMonths: int, century: int) returns (n: int)
    requires token.Valid() && Cadence(stepMonths) && century == 12 * (1900 + Year(today))
    ensures Eligible(today, token, stepMonths, n) && n < MonthStart(century)
  {
    var k := SomeMonthFits(MonthNumber(today), token, stepMonths);
    var month := StepMonth(today, stepMonths, k);
    n := DateIn(month, token);
    LaterMonthIsLater(today, token, MonthsAhead(k, stepMonths));
    CalendarDates(token, n, month);
    MonthStartGrows(month, century);
    assert n < MonthStart(month) + MonthLength(month);
  }

  lemma RemappedIsLate(today: int, token: DayToken, stepMonths: int)
    requires token.Valid() && Cadence(stepMonths) && 0 <= Year(today) <= 99
    ensures !IsNext(today, token, stepMonths, Search(today, token, stepMonths, 0))
  {
    var century := 12 * (1900 + Year(today));
    var n := EarlyDate(today, token, stepMonths, century);
    SearchIsLate(today, token, stepMonths, 0, century);
  }

  /** `century` is January of the year the code takes for the current one. */
  lemma {:induction false} SearchIsLate(today: int, token: DayToken, stepMonths: int, step: nat, century: int)
    requires token.Valid() && Cadence(stepMonths) && 0 <= Year(today) <= 99 && step <= 25
    requires century == 12 * (1900 + Year(today))
    ensures Search(today, token, stepMonths, step) >= MonthStart(century)
    decreases 25 - step
  {
    if step < 25 {
      SearchStep(today, token, stepMonths, step);
      SearchIsLate(today, token, stepMonths, step + 1, century);
      RemappedCandidate(today, token, MonthsAhead(step, stepMonths), century);
    } else {
      RemappedMonth(today, stepMonths, 1, century);
    }
  }

  lemma RemappedCandidate(today: int, token: DayToken, months: int, century: int)
    requires token.Valid() && months >= 0 && 0 <= Year(today) <= 99
    requires century == 12 * (1900 + Year(today))
    ensures Candidate(today, token, months) >= MonthStart(century)
  {
    if token == Last {
      RemappedMonth(today, months + 1, 0, century);
    } else {
      RemappedMonth(today, months, token.day, century);
    }
  }

  lemma RemappedMonth(today: int, months: int, date: int, century: int)
    requires 0 <= Year(today) <= 99 && months >= 0 && (date >= 1 || (date == 0 && months > 0))
    requires century == 12 * (1900 + Year(today))
    ensures DateUTC(Year(today), Month(today) + months, date) >= MonthStart(century)
  {
    var month := century + (Month(today) + months);
    if date == 0 {
      MonthStartGrows(century, month);
    } else {
      AfterMonth(century, month);
    }
  }

  /** For monthly runs every later date on the calendar counts. */
  lemma MonthlyEligible(today: int, token: DayToken, n: int)
    requires n > today && OnCalendar(token, n)
    ensures Eligible(today, token, 1, n)
  {
    MonthNumberGrows(today, n);
    assert MonthNumber(n) == StepMonth(today, 1, MonthNumber(n) - MonthNumber(today));
  }

  /** A later starting date never has an earlier monthly run. */
  lemma MonthlyIsMonotone(from1: int, from2: int, token: DayToken)
    requires token.Valid() && from1 <= from2
    requires !(0 <= Year(from1) <= 99) && !(0 <= Year(from2) <= 99)
    ensures Search(from1, token, 1, 0) <= Search(from2, token, 1, 0)
  {
    NextOccurrenceExact(from1, token, 1);
    NextOccurrenceExact(from2, token, 1);
    var r1, r2 := Search(from1, token, 1, 0), Search(from2, token, 1, 0);
    MonthlyEligible(from1, token, r2);
  }
}
