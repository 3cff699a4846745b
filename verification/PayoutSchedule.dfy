/**
 Settlement terms and the next run they lead to: `resolveNextPayoutDate`,
 `parseDayOfMonth` and `toIsoDate` of src/common/utils/payout-schedule.utils.ts.

 A lower-case table need not know that a capital sigma has two small forms: neither is
 ASCII, and only ASCII names schedules and days.
 */
module PayoutSchedule {
  import opened PayoutCalendar
  import opened Text
  import opened Wrappers
  import Decimal

  // ----- terms

  datatype Schedule = Daily | Weekly(weekday: int) | Biweekly | Monthly(token: DayToken) | Quarterly(token: DayToken)

  const WEEKDAYS := ["SUNDAY", "MONDAY", "TUESDAY", "WEDNESDAY", "THURSDAY", "FRIDAY", "SATURDAY"]

  /** `getUTCDay` (section 21.4.1.6 of ECMA-262); 1970-01-01 was a Thursday. */
  function WeekDay(day: int): int {
    (day + 4) % 7
  }

  /** The name of the weekday of a date. */
  function DayName(day: int): string {
    WEEKDAYS[WeekDay(day)]
  }

  /** The weekday that follows one. */
  function Following(name: string): string {
    match name
    case "SUNDAY" => "MONDAY"
    case "MONDAY" => "TUESDAY"
    case "TUESDAY" => "WEDNESDAY"
    case "WEDNESDAY" => "THURSDAY"
    case "THURSDAY" => "FRIDAY"
    case "FRIDAY" => "SATURDAY"
    case _ => "SUNDAY"
  }

  /** Day 0 is a Thursday, and weekdays follow each other. */
  lemma WeekDaysFollow(day: int)
    ensures DayName(0) == "THURSDAY"
    ensures DayName(day + 1) == Following(DayName(day))
  {
  }

  function IndexOf(names: seq<string>, name: string): (i: int)
    ensures -1 <= i < |names|
    ensures i == -1 ==> name !in names
    ensures i >= 0 ==> names[i] == name && name !in names[..i]
  {
    if names == [] then -1
    else if names[0] == name then 0
    else
      var rest := IndexOf(names[1..], name);
      assert names == [names[0]] + names[1..];
      if rest == -1 then -1
      else
        assert names[..rest + 1] == [names[0]] + names[1..][..rest];
        rest + 1
  }

  const ORDINALS := ["", "st", "nd", "rd", "th"]

  /** What a day of the month means, trimmed and in lower case. */
  function DayOfToken(token: string): (r: Option<DayToken>)
    ensures r.Some? ==> r.value.Valid()
  {
    if token == "" then None
    else if token == "last" || token == "last day" then Some(Last)
    else
      var digits := if |token| >= 2 && Decimal.IsDigit(token[1]) then 2 else 1;
      if !Decimal.AllDigits(token[..digits]) || token[digits..] !in ORDINALS then None
      else
        var day := Decimal.Parse(token[..digits]);
        if day < 1 || day > 31 then None else Some(Nth(day))
  }

  function ParseDayOfMonth(raw: string, lower: CaseTable): (r: Option<DayToken>)
    ensures r.Some? ==> r.value.Valid()
  {
    DayOfToken(MapCase(Trim(raw), lower))
  }

  /** A numeral of one or two digits, zero-padded or not, with an ordinal ending or none. */
  ghost predicate Names(token: string, day: nat, width: nat, ending: string) {
    && 1 <= width <= 2 && day < Decimal.Pow10(width)
    && ending in ["", "st", "nd", "rd", "th"]
    && token == Decimal.PadStart(Decimal.Show(day), width, '0') + ending
  }

  ghost predicate NamesDay(token: string, day: nat) {
    exists width: nat, ending :: Names(token, day, width, ending)
  }

  /** Such a text, trimmed and in lower case, names its day, two words name the last day, and
      nothing else names a day. */
  lemma ParseDayExact(raw: string, lower: CaseTable, day: int)
    requires 1 <= day <= 31
    ensures ParseDayOfMonth(raw, lower) == Some(Nth(day)) <==> NamesDay(MapCase(Trim(raw), lower), day)
    ensures ParseDayOfMonth(raw, lower) == Some(Last) <==> MapCase(Trim(raw), lower) in ["last", "last day"]
    ensures ParseDayOfMonth(raw, lower) == None <==>
              forall d: DayToken | d.Valid() :: ParseDayOfMonth(raw, lower) != Some(d)
  {
    TokenExact(MapCase(Trim(raw), lower), day);
    if ParseDayOfMonth(raw, lower).Some? {
      assert ParseDayOfMonth(raw, lower) == Some(ParseDayOfMonth(raw, lower).value);
    }
  }

  lemma TokenExact(token: string, day: int)
    requires 1 <= day <= 31
    ensures DayOfToken(token) == Some(Nth(day)) <==> NamesDay(token, day)
  {
    if DayOfToken(token) == Some(Nth(day)) {
      var width := if |token| >= 2 && Decimal.IsDigit(token[1]) then 2 else 1;
      Decimal.ParseBound(token[..width]);
      Decimal.FixedWidth(day, width, token[..width]);
      assert Names(token, day, width, token[width..]);
    }
    if width: nat, ending :| Names(token, day, width, ending) {
      NamedDayParses(token, day, width, ending);
    }
  }

  lemma NamedDayParses(token: string, day: nat, width: nat, ending: string)
    requires 1 <= day <= 31 && Names(token, day, width, ending)
    ensures DayOfToken(token) == Some(Nth(day))
  {
    var numeral := Decimal.PadStart(Decimal.Show(day), width, '0');
    Decimal.FixedWidth(day, width, numeral);
    assert token[..width] == numeral && token[width..] == ending;
    assert Decimal.IsDigit(token[0]);
    if width == 1 && ending != "" {
      assert token[1] == ending[0];
    }
  }

  datatype Terms = Terms(payoutSchedule: string, payoutDay: string)

  datatype Cases = Cases(upper: CaseTable, lower: CaseTable)

  /** What the word of a schedule and the two forms of its day mean; others pin no date. */
  function ReadAs(word: string, name: string, token: string): (s: Option<Schedule>)
    ensures s.Some? ==> ValidSchedule(s.value)
  {
    match word
    case "DAILY" => Some(Daily)
    case "WEEKLY" =>
      var target := IndexOf(WEEKDAYS, name);
      if target < 0 then None else Some(Weekly(target))
    case "BIWEEKLY" => Some(Biweekly)
    case "FORTNIGHTLY" => Some(Biweekly)
    case "MONTHLY" => if DayOfToken(token) == None then None else Some(Monthly(DayOfToken(token).value))
    case "QUARTERLY" => if DayOfToken(token) == None then None else Some(Quarterly(DayOfToken(token).value))
    case _ => None
  }

  /** What configured terms mean. */
  function ParseSchedule(terms: Terms, cases: Cases): (s: Option<Schedule>)
    ensures s.Some? ==> ValidSchedule(s.value)
  {
    var rawDay := Trim(terms.payoutDay);
    ReadAs(Trim(MapCase(terms.payoutSchedule, cases.upper)), MapCase(rawDay, cases.upper), MapCase(rawDay, cases.lower))
  }

  predicate ValidSchedule(s: Schedule) {
    match s
    case Weekly(weekday) => 0 <= weekday < 7
    case Monthly(token) => token.Valid()
    case Quarterly(token) => token.Valid()
    case _ => true
  }

  // ----- the dates of a schedule

  /** Whether the schedule has a run on day n.  Fortnights and quarters are counted from
      today, the day the question is asked. */
  ghost predicate RunsOn(schedule: Schedule, today: int, n: int) {
    match schedule
    case Daily => true
    case Weekly(weekday) => WeekDay(n) == weekday
    case Biweekly => (n - today) % 14 == 0
    case Monthly(token) => OnCalendar(token, n)
    case Quarterly(token) => OnCalendar(token, n) && exists k: nat :: MonthNumber(n) == StepMonth(today, 3, k)
  }

  /** The first run not before `start`. */
  ghost predicate FirstFrom(schedule: Schedule, today: int, start: int, result: int) {
    && start <= result && RunsOn(schedule, today, result)
    && forall n :: start <= n < result ==> !RunsOn(schedule, today, n)
  }

  /** The first run after today. */
  ghost predicate IsNextRun(schedule: Schedule, today: int, result: int) {
    FirstFrom(schedule, today, today + 1, result)
  }

  /** The next run of a schedule, and nothing for none. */
  ghost predicate RunOf(schedule: Option<Schedule>, today: int, result: Option<int>) {
    result.Some? == schedule.Some? && (schedule.Some? ==> IsNextRun(schedule.value, today, result.value))
  }

  /** Today is one of the days of the schedule. */
  predicate FallsToday(schedule: Schedule, today: int) {
    match schedule
    case Daily => true
    case Weekly(weekday) => WeekDay(today) == weekday
    case Biweekly => true
    case Monthly(token) => OnCalendar(token, today)
    case Quarterly(token) => OnCalendar(token, today)
  }

  /** The run after today is also the first one at or after today exactly when today is not
      itself a day of the schedule. */
  lemma AtOrAfterExact(schedule: Schedule, today: int, result: int)
    requires IsNextRun(schedule, today, result)
    ensures FirstFrom(schedule, today, today, result) <==> !FallsToday(schedule, today)
  {
    if schedule.Quarterly? {
      assert MonthNumber(today) == StepMonth(today, 3, 0);
    }
    assert RunsOn(schedule, today, today) <==> FallsToday(schedule, today);
  }

  /** Such a schedule: a daily one, on every day. */
  lemma DailyIsNotToday(today: int)
    ensures IsNextRun(Daily, today, today + 1) && !FirstFrom(Daily, today, today, today + 1)
  {
    AtOrAfterExact(Daily, today, today + 1);
  }

  lemma WeekDayShift(today: int, k: int)
    requires 0 <= k <= 7
    ensures WeekDay(today + k) == (WeekDay(today) + k) % 7
  {
  }

  /** The modular step reaches the first later date with the weekday. */
  lemma WeeklyDelta(today: int, target: int)
    requires 0 <= target < 7
    ensures var delta := (target - WeekDay(today) + 7) % 7;
            IsNextRun(Weekly(target), today, today + if delta == 0 then 7 else delta)
  {
    var delta := (target - WeekDay(today) + 7) % 7;
    var result := today + if delta == 0 then 7 else delta;
    WeekDayShift(today, result - today);
    forall n | today + 1 <= n < result
      ensures !RunsOn(Weekly(target), today, n)
    {
      WeekDayShift(today, n - today);
    }
  }

  /** For monthly runs every later date on the calendar counts. */
  lemma NextMonthIsNextRun(today: int, token: DayToken, result: int)
    requires IsNext(today, token, 1, result)
    ensures IsNextRun(Monthly(token), today, result)
  {
    forall n | today + 1 <= n < result
      ensures !RunsOn(Monthly(token), today, n)
    {
      if OnCalendar(token, n) {
        MonthlyEligible(today, token, n);
      }
    }
  }

  lemma QuarterRuns(today: int, token: DayToken, n: int)
    requires n > today
    ensures RunsOn(Quarterly(token), today, n) <==> Eligible(today, token, 3, n)
  {
  }

  lemma NextQuarterIsNextRun(today: int, token: DayToken, result: int)
    requires IsNext(today, token, 3, result)
    ensures IsNextRun(Quarterly(token), today, result)
  {
    QuarterRuns(today, token, result);
    forall n | today + 1 <= n < result
      ensures !RunsOn(Quarterly(token), today, n)
    {
      QuarterRuns(today, token, n);
    }
  }

  // ----- what terms mean

  /** The first day after today for which `on` holds. */
  ghost predicate FirstAfter(today: int, on: int -> bool, result: int) {
    today < result && on(result) && forall n :: today < n < result ==> !on(n)
  }

  /** The first day after today for which `on` holds, for terms that name one. */
  ghost predicate FirstIf(named: bool, today: int, on: int -> bool, result: Option<int>) {
    result.Some? == named && (named ==> FirstAfter(today, on, result.value))
  }

  /** The two texts that stand for the last day of a month, and those that name a day of it. */
  ghost predicate NamesDate(token: string) {
    token in ["last", "last day"] || exists day: nat :: 1 <= day <= 31 && NamesDay(token, day)
  }

  /** The n-th day is one that such a text names. */
  ghost predicate IsDated(token: string, n: int) {
    if token in ["last", "last day"] then DayOfMonth(n) == MonthLength(MonthNumber(n))
    else NamesDay(token, DayOfMonth(n))
  }

  /** What settlement terms ask for, told from their text: the word of the schedule, the name
      of a weekday, or the text of a day of the month. */
  ghost predicate AsksFor(word: string, name: string, token: string, today: int, result: Option<int>) {
    if word == "DAILY" then result == Some(today + 1)
    else if word == "BIWEEKLY" || word == "FORTNIGHTLY" then result == Some(today + 14)
    else if word == "WEEKLY" then FirstIf(exists n :: DayName(n) == name, today, n => DayName(n) == name, result)
    else if word == "MONTHLY" then FirstIf(NamesDate(token), today, n => IsDated(token, n), result)
    else if word == "QUARTERLY" then
      FirstIf(NamesDate(token), today,
              n => IsDated(token, n) && (MonthNumber(n) - MonthNumber(today)) % 3 == 0, result)
    else result == None
  }

  /** The same of the terms: the word trimmed and in upper case, the day trimmed and in upper
      case for a weekday, in lower case for a day of the month. */
  ghost predicate Answers(terms: Terms, cases: Cases, today: int, result: Option<int>) {
    var word, day := Trim(MapCase(terms.payoutSchedule, cases.upper)), Trim(terms.payoutDay);
    AsksFor(word, MapCase(day, cases.upper), MapCase(day, cases.lower), today, result)
  }

  lemma NameOfDay(n: int, target: int)
    requires 0 <= target < 7
    ensures DayName(n) == WEEKDAYS[target] <==> WeekDay(n) == target
  {
  }

  /** Weekdays are named by the seven names of the table. */
  lemma NamesOfDays(name: string)
    ensures name in WEEKDAYS <==> exists n :: DayName(n) == name
  {
    if name in WEEKDAYS {
      DayWithName(name);
    }
    if n :| DayName(n) == name {
      DayHasName(n);
    }
  }

  lemma DayWithName(name: string)
    requires name in WEEKDAYS
    ensures exists n :: DayName(n) == name
  {
    var target := IndexOf(WEEKDAYS, name);
    DayInFirstWeek(target);
    assert DayName(target - 4) == name;
  }

  lemma DayInFirstWeek(target: int)
    requires 0 <= target < 7
    ensures DayName(target - 4) == WEEKDAYS[target]
  {
    assert WeekDay(target - 4) == target;
  }

  lemma DayHasName(n: int)
    ensures DayName(n) in WEEKDAYS
  {
  }

  /** A text names a date exactly when it is read as one, and then it names the dates of that
      calendar. */
  lemma NamesItsCalendar(token: string)
    ensures NamesDate(token) <==> DayOfToken(token).Some?
    ensures DayOfToken(token).Some? ==> forall n :: IsDated(token, n) <==> OnCalendar(DayOfToken(token).value, n)
  {
    if token !in ["last", "last day"] {
      forall day: nat | 1 <= day <= 31
        ensures NamesDay(token, day) <==> DayOfToken(token) == Some(Nth(day))
      {
        TokenExact(token, day);
      }
      forall n
        ensures 1 <= DayOfMonth(n) <= 31
      {
        InItsMonth(n);
      }
    }
  }

  lemma QuarterDays(today: int, token: DayToken, n: int)
    requires n > today
    ensures RunsOn(Quarterly(token), today, n)
       <==> OnCalendar(token, n) && (MonthNumber(n) - MonthNumber(today)) % 3 == 0
  {
    MonthNumberGrows(today, n);
    if (MonthNumber(n) - MonthNumber(today)) % 3 == 0 {
      ThirdMonths(today, n);
    }
    if k: nat :| MonthNumber(n) == StepMonth(today, 3, k) {
      ByThrees(today, k);
    }
  }

  lemma ThirdMonths(today: int, n: int)
    requires MonthNumber(n) >= MonthNumber(today) && (MonthNumber(n) - MonthNumber(today)) % 3 == 0
    ensures exists k: nat :: MonthNumber(n) == StepMonth(today, 3, k)
  {
    var k: nat := (MonthNumber(n) - MonthNumber(today)) / 3;
    assert MonthNumber(n) == StepMonth(today, 3, k);
  }

  lemma ByThrees(today: int, k: nat)
    ensures (StepMonth(today, 3, k) - MonthNumber(today)) % 3 == 0
  {
  }

  lemma FirstAfterRuns(schedule: Schedule, today: int, on: int -> bool, result: int)
    requires forall n :: n > today ==> (on(n) <==> RunsOn(schedule, today, n))
    requires IsNextRun(schedule, today, result)
    ensures FirstAfter(today, on, result)
  {
  }

  lemma WeeklyMeans(name: string, today: int, result: Option<int>)
    requires result.Some? <==> IndexOf(WEEKDAYS, name) >= 0
    requires result.Some? ==> IsNextRun(Weekly(IndexOf(WEEKDAYS, name)), today, result.value)
    ensures FirstIf(exists n :: DayName(n) == name, today, n => DayName(n) == name, result)
  {
    var target := IndexOf(WEEKDAYS, name);
    NamesOfDays(name);
    if result.Some? {
      forall n
        ensures DayName(n) == name <==> WeekDay(n) == target
      {
        NameOfDay(n, target);
      }
      FirstAfterRuns(Weekly(target), today, n => DayName(n) == name, result.value);
    }
  }

  lemma MonthlyMeans(token: string, today: int, result: Option<int>)
    requires result.Some? <==> DayOfToken(token).Some?
    requires result.Some? ==> IsNextRun(Monthly(DayOfToken(token).value), today, result.value)
    ensures FirstIf(NamesDate(token), today, n => IsDated(token, n), result)
  {
    NamesItsCalendar(token);
    if result.Some? {
      FirstAfterRuns(Monthly(DayOfToken(token).value), today, n => IsDated(token, n), result.value);
    }
  }

  lemma QuarterlyMeans(token: string, today: int, result: Option<int>)
    requires result.Some? <==> DayOfToken(token).Some?
    requires result.Some? ==> IsNextRun(Quarterly(DayOfToken(token).value), today, result.value)
    ensures FirstIf(NamesDate(token), today,
                    n => IsDated(token, n) && (MonthNumber(n) - MonthNumber(today)) % 3 == 0, result)
  {
    NamesItsCalendar(token);
    if result.Some? {
      forall n | n > today
        ensures RunsOn(Quarterly(DayOfToken(token).value), today, n)
           <==> IsDated(token, n) && (MonthNumber(n) - MonthNumber(today)) % 3 == 0
      {
        QuarterDays(today, DayOfToken(token).value, n);
      }
      FirstAfterRuns(Quarterly(DayOfToken(token).value), today,
                     n => IsDated(token, n) && (MonthNumber(n) - MonthNumber(today)) % 3 == 0, result.value);
    }
  }

  lemma DailyMeans(today: int, result: int)
    ensures IsNextRun(Daily, today, result) ==> result == today + 1
    ensures IsNextRun(Biweekly, today, result) ==> result == today + 14
  {
    assert RunsOn(Daily, today, today + 1) && RunsOn(Biweekly, today, today + 14);
  }

  lemma WordMeans(word: string, name: string, token: string, today: int, result: Option<int>)
    requires RunOf(ReadAs(word, name, token), today, result)
    ensures AsksFor(word, name, token, today, result)
  {
    if word == "WEEKLY" {
      WeeklyMeans(name, today, result);
    } else if word == "MONTHLY" {
      MonthlyMeans(token, today, result);
    } else if word == "QUARTERLY" {
      QuarterlyMeans(token, today, result);
    } else if result.Some? {
      DailyMeans(today, result.value);
    }
  }

  /** Terms ask for the next run of the schedule they are read as, and for nothing if they are
      read as none. */
  lemma TermsMean(terms: Terms, cases: Cases, today: int, result: Option<int>)
    requires RunOf(ParseSchedule(terms, cases), today, result)
    ensures Answers(terms, cases, today, result)
  {
    var day := Trim(terms.payoutDay);
    WordMeans(Trim(MapCase(terms.payoutSchedule, cases.upper)), MapCase(day, cases.upper),
              MapCase(day, cases.lower), today, result);
  }

  // ----- today

  const DAY_LENGTH := 86400000

  /** Midnight UTC of the day of `from`, a time value in milliseconds. */
  function Today(from: int): int {
    var day := from / DAY_LENGTH;
    DateUTC(Year(day), Month(day), DayOfMonth(day))
  }

  lemma RemappedDay(day: int)
    requires 0 <= Year(day) <= 99
    ensures DateUTC(Year(day), Month(day), DayOfMonth(day)) >= MonthStart(12 * (1900 + Year(day)))
  {
    var january := 12 * (1900 + Year(day));
    InItsMonth(day);
    AfterMonth(january, january + Month(day));
  }

  lemma RemappedYear(day: int, midnight: int)
    requires 0 <= Year(day) <= 99 && midnight >= MonthStart(12 * (1900 + Year(day)))
    ensures Year(midnight) >= 1900
  {
    var january := 12 * (1900 + Year(day));
    NextMonthStart(january);
    MonthIsUnique(MonthStart(january), january);
    MonthNumberGrows(MonthStart(january), midnight);
  }

  /** It is the day of `from`, or a day of the twentieth century when `from` lies in one of
      the remapped years. */
  lemma TodayIsItself(from: int)
    ensures !(0 <= Year(Today(from)) <= 99)
    ensures Today(from) == from / DAY_LENGTH <==> !(0 <= Year(from / DAY_LENGTH) <= 99)
  {
    CivilRoundTrip(from / DAY_LENGTH);
    if 0 <= Year(from / DAY_LENGTH) <= 99 {
      RemappedDay(from / DAY_LENGTH);
      RemappedYear(from / DAY_LENGTH, Today(from));
    }
  }

  lemma RemappedToday(from: int)
    requires 0 <= Year(from / DAY_LENGTH) <= 99
    ensures Today(from) >= MonthStart(12 * (1900 + Year(from / DAY_LENGTH)))
    ensures Today(from) > from / DAY_LENGTH + 14
  {
    RemappedDay(from / DAY_LENGTH);
    AfterTwoMonths(from / DAY_LENGTH, 12 * (1900 + Year(from / DAY_LENGTH)));
  }

  lemma AfterTwoMonths(day: int, month: int)
    requires month >= MonthNumber(day) + 2
    ensures MonthStart(month) > day + 14
  {
    InItsMonth(day);
    NextMonthStart(MonthNumber(day) + 1);
    AfterMonth(MonthNumber(day) + 2, month);
  }

  /** Every schedule has a run soon after any day. */
  lemma EarlyRun(schedule: Schedule, day: int) returns (n: int)
    requires ValidSchedule(schedule)
    ensures RunsOn(schedule, day, n)
    ensures day < n && (n <= day + 14 || n < MonthStart(12 * (1900 + Year(day))))
  {
    match schedule
    case Daily => n := day + 1;
    case Weekly(weekday) =>
      var delta := (weekday - WeekDay(day) + 7) % 7;
      WeeklyDelta(day, weekday);
      n := day + if delta == 0 then 7 else delta;
    case Biweekly => n := day + 14;
    case Monthly(token) => n := EarlyDate(day, token, 1, 12 * (1900 + Year(day)));
    case Quarterly(token) => n := EarlyDate(day, token, 3, 12 * (1900 + Year(day)));
  }

  /** What is the next run after the midnight the code rebuilds is the next run after the day
      of `from` exactly when that day is not in one of the years 0 to 99: for those the code
      answers with a date of the twentieth century. */
  lemma NextRunExact(schedule: Schedule, from: int, result: int)
    requires ValidSchedule(schedule) && IsNextRun(schedule, Today(from), result)
    ensures IsNextRun(schedule, from / DAY_LENGTH, result) <==> !(0 <= Year(from / DAY_LENGTH) <= 99)
  {
    TodayIsItself(from);
    if 0 <= Year(from / DAY_LENGTH) <= 99 {
      RemappedToday(from);
      var n := EarlyRun(schedule, from / DAY_LENGTH);
      assert from / DAY_LENGTH + 1 <= n < result;
    }
  }

  /** Such days: in each of these years, the daily run asked for on January 1. */
  lemma RemappedRun(year: int)
    requires 0 <= year <= 99
    ensures var from := MakeDay(year, 0, 1) * DAY_LENGTH;
            && from / DAY_LENGTH == MakeDay(year, 0, 1)
            && !IsNextRun(Daily, from / DAY_LENGTH, Today(from) + 1)
  {
    var from := MakeDay(year, 0, 1) * DAY_LENGTH;
    DayRoundTrip(year, 0, 1);
    assert IsNextRun(Daily, Today(from), Today(from) + 1);
    NextRunExact(Daily, from, Today(from) + 1);
  }

  // ----- ISO dates

  /** The year in `toISOString` (section 21.4.1.32 of ECMA-262): four digits, or a sign and
      six. */
  function IsoYear(year: int): string {
    if 0 <= year <= 9999 then Decimal.PadStart(Decimal.Show(year), 4, '0')
    else if year < 0 then "-" + Decimal.PadStart(Decimal.Show(-year), 6, '0')
    else "+" + Decimal.PadStart(Decimal.Show(year), 6, '0')
  }

  function TwoDigits(n: nat): string {
    Decimal.PadStart(Decimal.Show(n), 2, '0')
  }

  /** `toIsoDate`: the first ten characters of `toISOString`. */
  function ToIsoDate(day: int): string
  {
    InItsMonth(day);
    Slice(IsoYear(Year(day)) + "-" + TwoDigits(Month(day) + 1) + "-" + TwoDigits(DayOfMonth(day))
          + "T00:00:00.000Z", 10)
  }

  /** The day a text of the form YYYY-MM-DD names. */
  function ReadIsoDate(s: string): Option<int> {
    if |s| == 10 && s[4] == '-' && s[7] == '-'
       && Decimal.AllDigits(s[..4]) && Decimal.AllDigits(s[5..7]) && Decimal.AllDigits(s[8..])
    then Some(MakeDay(Decimal.Parse(s[..4]), Decimal.Parse(s[5..7]) - 1, Decimal.Parse(s[8..])))
    else None
  }

  lemma IsoParts(y: string, m: string, d: string, rest: string)
    requires |y| == 4 && |m| == 2 && |d| == 2
    ensures var s := Slice(y + "-" + m + "-" + d + rest, 10);
            && |s| == 10 && s[4] == '-' && s[7] == '-' && s[..4] == y && s[5..7] == m && s[8..] == d
  {
  }

  lemma TwoDigitsRead(n: nat)
    requires n < 100
    ensures |TwoDigits(n)| == 2 && Decimal.AllDigits(TwoDigits(n)) && Decimal.Parse(TwoDigits(n)) == n
  {
    assert Decimal.Pow10(2) == 100;
    Decimal.FixedWidth(n, 2, TwoDigits(n));
  }

  lemma FourDigitsRead(n: nat)
    requires n < 10000
    ensures |IsoYear(n)| == 4 && Decimal.AllDigits(IsoYear(n)) && Decimal.Parse(IsoYear(n)) == n
  {
    assert Decimal.Pow10(4) == 10000;
    Decimal.FixedWidth(n, 4, IsoYear(n));
  }

  /** The formatted date reads back as the day exactly in the years of four digits; cutting
      after ten characters loses the day of any other. */
  lemma IsoDateExact(day: int)
    ensures ReadIsoDate(ToIsoDate(day)) == Some(day) <==> 0 <= Year(day) <= 9999
  {
    InItsMonth(day);
    CivilRoundTrip(day);
    var year, month, date := IsoYear(Year(day)), TwoDigits(Month(day) + 1), TwoDigits(DayOfMonth(day));
    if 0 <= Year(day) <= 9999 {
      FourDigitsRead(Year(day));
      TwoDigitsRead(Month(day) + 1);
      TwoDigitsRead(DayOfMonth(day));
      IsoParts(year, month, date, "T00:00:00.000Z");
    } else {
      assert ToIsoDate(day)[..4][0] == year[0];
      assert !Decimal.IsDigit(year[0]);
    }
  }

  /** Such a day: January 1 of the year 10000. */
  lemma LongYearIsCut()
    ensures ReadIsoDate(ToIsoDate(MakeDay(10000, 0, 1))) != Some(MakeDay(10000, 0, 1))
  {
    DayRoundTrip(10000, 0, 1);
    IsoDateExact(MakeDay(10000, 0, 1));
  }

  // ----- the code

  /** The case of weekly terms. */
  method NextWeekly(rawDay: string, cases: Cases, today: int) returns (result: Option<int>)
    ensures RunOf(ReadAs("WEEKLY", MapCase(rawDay, cases.upper), MapCase(rawDay, cases.lower)), today, result)
  {
    var target := IndexOf(WEEKDAYS, MapCase(rawDay, cases.upper));
    if target < 0 {
      return None;
    }
    var next := NextWeekDay(today, target);
    return Some(next);
  }

  method NextWeekDay(today: int, target: int) returns (result: int)
    requires 0 <= target < 7
    ensures IsNextRun(Weekly(target), today, result)
  {
    var delta := (target - WeekDay(today) + 7) % 7;
    WeeklyDelta(today, target);
    result := today + if delta == 0 then 7 else delta;
  }

  /** The cases of monthly and quarterly terms. */
  method NextDated(rawDay: string, cases: Cases, today: int, stepMonths: int) returns (result: Option<int>)
    requires Trim(rawDay) == rawDay && Cadence(stepMonths) && !(0 <= Year(today) <= 99)
    ensures RunOf(ReadAs(if stepMonths == 1 then "MONTHLY" else "QUARTERLY", MapCase(rawDay, cases.upper),
                         MapCase(rawDay, cases.lower)), today, result)
  {
    var token := ParseDayOfMonth(rawDay, cases.lower);
    if token == None {
      return None;
    }
    NextOccurrenceExact(today, token.value, stepMonths);
    var next := NextMonthlyOccurrence(today, token.value, stepMonths);
    if stepMonths == 1 {
      NextMonthIsNextRun(today, token.value, next);
    } else {
      NextQuarterIsNextRun(today, token.value, next);
    }
    return Some(next);
  }

  lemma FixedRuns(name: string, token: string, today: int)
    ensures RunOf(ReadAs("DAILY", name, token), today, Some(today + 1))
    ensures RunOf(ReadAs("BIWEEKLY", name, token), today, Some(today + 14))
    ensures RunOf(ReadAs("FORTNIGHTLY", name, token), today, Some(today + 14))
  {
  }

  method NextRunOf(schedule: string, rawDay: string, cases: Cases, today: int) returns (result: Option<int>)
    requires Trim(rawDay) == rawDay && !(0 <= Year(today) <= 99)
    ensures RunOf(ReadAs(schedule, MapCase(rawDay, cases.upper), MapCase(rawDay, cases.lower)), today, result)
  {
    FixedRuns(MapCase(rawDay, cases.upper), MapCase(rawDay, cases.lower), today);
    match schedule
    case "DAILY" =>
      return Some(today + 1);
    case "WEEKLY" =>
      result := NextWeekly(rawDay, cases, today);
    case "BIWEEKLY" =>
      return Some(today + 14);
    case "FORTNIGHTLY" =>
      return Some(today + 14);
    case "MONTHLY" =>
      result := NextDated(rawDay, cases, today, 1);
    case "QUARTERLY" =>
      result := NextDated(rawDay, cases, today, 3);
    case _ =>
      return None;
  }

  method NextRunDay(terms: Terms, cases: Cases, from: int) returns (result: Option<int>)
    ensures RunOf(ParseSchedule(terms, cases), Today(from), result)
  {
    var rawDay := Trim(terms.payoutDay);
    TodayIsItself(from);
    TrimTwice(terms.payoutDay);
    result := NextRunOf(Trim(MapCase(terms.payoutSchedule, cases.upper)), rawDay, cases, Today(from));
  }

  /** The answer is what the terms ask for after today, formatted, and that is the next run
      after the day of `from` exactly outside the years 0 to 99. */
  method ResolveNextPayoutDate(terms: Terms, cases: Cases, from: int) returns (result: Option<string>)
    ensures exists day ::
              && Answers(terms, cases, Today(from), day)
              && result == if day.Some? then Some(ToIsoDate(day.value)) else None
    ensures result.Some? <==> ParseSchedule(terms, cases).Some?
    ensures result.Some? ==>
              exists day :: && IsNextRun(ParseSchedule(terms, cases).value, Today(from), day)
                            && (IsNextRun(ParseSchedule(terms, cases).value, from / DAY_LENGTH, day)
                                <==> !(0 <= Year(from / DAY_LENGTH) <= 99))
                            && result.value == ToIsoDate(day)
  {
    var day := NextRunDay(terms, cases, from);
    TermsMean(terms, cases, Today(from), day);
    if day == None {
      return None;
    }
    NextRunExact(ParseSchedule(terms, cases).value, from, day.value);
    return Some(ToIsoDate(day.value));
  }
}
