/**
 `getOrganizationRevenueTimeSeries` of src/modules/analytics/analytics.service.ts (lines
 378-589).

 A conversion or a commission is a row of what the series looks at: the time it is counted
 at, its amount (for a commission the net amount) and whether its status is APPROVED.  Local
 dates are day numbers as in PayoutCalendar; `midnight` gives the time a local date begins
 and is only assumed to grow with the date.
 */
module RevenueSeries {
  import Decimal
  import PayoutCalendar
  import opened Wrappers

  datatype Row = Row(programId: string, affiliateId: string, approved: bool, amount: int, at: int)

  // ----- filter and sum

  function Between(rows: seq<Row>, start: int, end: int): seq<Row> {
    if rows == [] then []
    else
      var last := rows[|rows| - 1];
      Between(rows[..|rows| - 1], start, end) + if start <= last.at < end then [last] else []
  }

  function Approved(rows: seq<Row>): seq<Row> {
    if rows == [] then []
    else
      var last := rows[|rows| - 1];
      Approved(rows[..|rows| - 1]) + if last.approved then [last] else []
  }

  function Sum(rows: seq<Row>): int {
    if rows == [] then 0 else Sum(rows[..|rows| - 1]) + rows[|rows| - 1].amount
  }

  /** The rows of an interval are those counted at a time in it, each as often as given. */
  lemma {:induction false} BetweenExact(rows: seq<Row>, start: int, end: int, r: Row)
    ensures multiset(Between(rows, start, end))[r] == if start <= r.at < end then multiset(rows)[r] else 0
  {
    if rows != [] {
      var front, last := rows[..|rows| - 1], rows[|rows| - 1];
      BetweenExact(front, start, end, r);
      SplitLast(rows);
      CountSnoc(front, last, r);
      CountSnoc(Between(front, start, end), last, r);
    }
  }

  /** The approved rows are those with the mark, each as often as given. */
  lemma {:induction false} ApprovedExact(rows: seq<Row>, r: Row)
    ensures multiset(Approved(rows))[r] == if r.approved then multiset(rows)[r] else 0
  {
    if rows != [] {
      var front, last := rows[..|rows| - 1], rows[|rows| - 1];
      ApprovedExact(front, r);
      SplitLast(rows);
      CountSnoc(front, last, r);
      CountSnoc(Approved(front), last, r);
    }
  }

  // ----- the buckets

  datatype Range = Days(count: nat) | Weeks | Months(count: nat)

  /** `options.range` or else what `options.months` says; "" and 0 stand for none given. */
  function EffectiveRange(range: string, months: nat): string {
    if range != "" then range else if months != 0 then Decimal.Show(months) + "m" else "6m"
  }

  function RangeOf(range: string, months: nat): Range {
    var effective := EffectiveRange(range, months);
    if effective == "7d" then Days(7)
    else if effective == "30d" then Days(30)
    else if effective == "90d" then Weeks
    else if months != 0 then Months(months)
    else if effective == "12m" then Months(12)
    else Months(6)
  }

  /** The options made of a plain number of months. */
  function RangeOfNumber(months: nat): Range {
    RangeOf(if months <= 1 then "30d" else Decimal.Show(months) + "m", months)
  }

  function Count(range: Range): nat {
    match range
    case Days(n) => n
    case Weeks => 13
    case Months(n) => n
  }

  datatype Bucket = Bucket(start: int, end: int, prevStart: int, prevEnd: int)

  /** The dates a point begins and ends with, and those it is compared with. */
  function Dates(range: Range, today: int, idx: int): Bucket {
    match range
    case Days(n) =>
      var offset := n - 1 - idx;
      Bucket(today - offset, today - offset + 1, today - offset - n, today - offset - (n - 1))
    case Weeks =>
      var offset := (12 - idx) * 7;
      Bucket(today - offset - 6, today - offset + 1, today - offset - 6 - 91, today - offset + 1 - 91)
    case Months(n) =>
      var offset := n - 1 - idx;
      var month := PayoutCalendar.MonthNumber(today);
      Bucket(PayoutCalendar.MonthStart(month - offset), PayoutCalendar.MonthStart(month - offset + 1),
             PayoutCalendar.MonthStart(month - 12 - offset), PayoutCalendar.MonthStart(month - 12 - offset + 1))
  }

  function Times(midnight: int -> int, dates: Bucket): Bucket {
    Bucket(midnight(dates.start), midnight(dates.end), midnight(dates.prevStart), midnight(dates.prevEnd))
  }

  datatype Point = Point(revenue: int, previousRevenue: int, commission: int, previousCommission: int,
                         conversions: int, previousConversions: int)

  function PointOf(b: Bucket, conversions: seq<Row>, commissions: seq<Row>): Point {
    var cur, prev := Between(conversions, b.start, b.end), Between(conversions, b.prevStart, b.prevEnd);
    Point(Sum(Approved(cur)), Sum(Approved(prev)),
          Sum(Approved(Between(commissions, b.start, b.end))),
          Sum(Approved(Between(commissions, b.prevStart, b.prevEnd))),
          |cur|, |prev|)
  }

  function Buckets(range: Range, today: int, midnight: int -> int): (buckets: seq<Bucket>)
    ensures |buckets| == Count(range)
    ensures forall idx :: 0 <= idx < |buckets| ==> buckets[idx] == Times(midnight, Dates(range, today, idx))
  {
    seq(Count(range), idx => Times(midnight, Dates(range, today, idx)))
  }

  function Points(buckets: seq<Bucket>, conversions: seq<Row>, commissions: seq<Row>): (points: seq<Point>)
    ensures |points| == |buckets|
    ensures forall idx :: 0 <= idx < |points| ==> points[idx] == PointOf(buckets[idx], conversions, commissions)
  {
    seq(|buckets|, idx requires 0 <= idx < |buckets| => PointOf(buckets[idx], conversions, commissions))
  }

  function Series(range: Range, today: int, midnight: int -> int, conversions: seq<Row>, commissions: seq<Row>)
    : seq<Point>
  {
    Points(Buckets(range, today, midnight), conversions, commissions)
  }

  ghost predicate HasData(points: seq<Point>) {
    exists i :: 0 <= i < |points|
             && (points[i].revenue > 0 || points[i].conversions > 0 || points[i].previousRevenue > 0)
  }

  // ----- the dates tile

  /** From the first date of the first point to the last of the last, and the same for the
      points compared with. */
  function Span(range: Range, today: int): Bucket
    requires Count(range) > 0
  {
    var first, last := Dates(range, today, 0), Dates(range, today, Count(range) - 1);
    Bucket(first.start, last.end, first.prevStart, last.prevEnd)
  }

  /** Each point ends where the next one begins, and no point is empty. */
  lemma BucketsAreAdjacent(range: Range, today: int, idx: int)
    ensures Dates(range, today, idx).end == Dates(range, today, idx + 1).start
    ensures Dates(range, today, idx).prevEnd == Dates(range, today, idx + 1).prevStart
    ensures Dates(range, today, idx).start < Dates(range, today, idx).end
    ensures Dates(range, today, idx).prevStart < Dates(range, today, idx).prevEnd
  {
    if range.Months? {
      var month := PayoutCalendar.MonthNumber(today) - (range.count - 1 - idx);
      PayoutCalendar.NextMonthStart(month);
      PayoutCalendar.NextMonthStart(month - 12);
    }
  }

  /** A point is one day, seven days, or one month of the calendar, and so is what it is
      compared with. */
  lemma PointLengths(range: Range, today: int, idx: int)
    ensures var d := Dates(range, today, idx);
            if range.Months? then
              PayoutCalendar.DayOfMonth(d.start) == PayoutCalendar.DayOfMonth(d.prevStart) == 1
              && d.end - d.start == PayoutCalendar.MonthLength(PayoutCalendar.MonthNumber(d.start))
              && d.prevEnd - d.prevStart == PayoutCalendar.MonthLength(PayoutCalendar.MonthNumber(d.prevStart))
              && PayoutCalendar.MonthNumber(d.prevStart) == PayoutCalendar.MonthNumber(d.start) - 12
            else d.end - d.start == d.prevEnd - d.prevStart == if range.Days? then 1 else 7
  {
    if range.Months? {
      var month := PayoutCalendar.MonthNumber(today) - (range.count - 1 - idx);
      PayoutCalendar.NextMonthStart(month);
      PayoutCalendar.NextMonthStart(month - 12);
      PayoutCalendar.MonthIsUnique(PayoutCalendar.MonthStart(month), month);
      PayoutCalendar.MonthIsUnique(PayoutCalendar.MonthStart(month - 12), month - 12);
    }
  }

  /** The last point holds today; the points compared with end where the first point begins,
      for months only when there are twelve of them. */
  lemma PreviousSpanExact(range: Range, today: int)
    requires Count(range) > 0
    ensures Dates(range, today, Count(range) - 1).start <= today < Span(range, today).end
    ensures Span(range, today).prevEnd == Span(range, today).start <==> (range.Months? ==> range.count == 12)
    ensures !range.Months? ==>
              var s := Span(range, today); s.end - s.start == s.prevEnd - s.prevStart && s.end == today + 1
  {
    if range.Months? {
      var month := PayoutCalendar.MonthNumber(today);
      PayoutCalendar.InItsMonth(today);
      var first, previous := month - (range.count - 1), month - 12 + 1;
      if first < previous {
        PayoutCalendar.MonthStartGrows(first, previous);
      } else if previous < first {
        PayoutCalendar.MonthStartGrows(previous, first);
      }
    }
  }

  // ----- the ranges that can be asked for

  function MonthsOf(range: string, months: nat): nat {
    if months != 0 then months else if range == "12m" then 12 else 6
  }

  /** Three names ask for days; everything else asks for months. */
  lemma RangeOfExact(range: string, months: nat)
    ensures RangeOf(range, months)
         == if range == "7d" then Days(7) else if range == "30d" then Days(30) else if range == "90d" then Weeks
            else Months(MonthsOf(range, months))
  {
    if range == "" && months != 0 {
      MonthsAreNoDays(months);
    }
  }

  lemma MonthsAreNoDays(months: nat)
    ensures Decimal.Show(months) + "m" !in ["7d", "30d", "90d"]
  {
    var s := Decimal.Show(months) + "m";
    assert s[|s| - 1] == 'm';
  }

  /** A plain number asks for that many months, or for 30 days if it is 0 or 1. */
  lemma RangeOfNumberExact(months: nat)
    ensures RangeOfNumber(months) == if months <= 1 then Days(30) else Months(months)
  {
    MonthsAreNoDays(months);
  }

  /** The dates every request covers, and that the span compared with is the one before it
      exactly for the day ranges and for twelve months. */
  lemma RequestedSpanExact(range: string, months: nat, today: int)
    ensures Count(RangeOf(range, months)) > 0
    ensures var s, month := Span(RangeOf(range, months), today), PayoutCalendar.MonthNumber(today);
            if range == "7d" then s == Bucket(today - 6, today + 1, today - 13, today - 6)
            else if range == "30d" then s == Bucket(today - 29, today + 1, today - 59, today - 29)
            else if range == "90d" then s == Bucket(today - 90, today + 1, today - 181, today - 90)
            else
              && s.start == PayoutCalendar.MonthStart(month + 1 - MonthsOf(range, months))
              && s.end == PayoutCalendar.MonthStart(month + 1)
              && s.prevStart == PayoutCalendar.MonthStart(month - 11 - MonthsOf(range, months))
              && s.prevEnd == PayoutCalendar.MonthStart(month - 11)
              && (s.prevEnd == s.start <==> MonthsOf(range, months) == 12)
  {
    RangeOfExact(range, months);
    PreviousSpanExact(RangeOf(range, months), today);
  }

  // ----- the points add up

  lemma {:induction false} RowsSplit(rows: seq<Row>, a: int, b: int, c: int)
    requires a <= b <= c
    ensures Sum(Approved(Between(rows, a, c)))
         == Sum(Approved(Between(rows, a, b))) + Sum(Approved(Between(rows, b, c)))
    ensures |Between(rows, a, c)| == |Between(rows, a, b)| + |Between(rows, b, c)|
  {
    if rows != [] {
      var front, last := rows[..|rows| - 1], rows[|rows| - 1];
      RowsSplit(front, a, b, c);
      SumWith(Between(front, a, b), last);
      SumWith(Between(front, b, c), last);
      SumWith(Between(front, a, c), last);
    }
  }

  lemma SumWith(rows: seq<Row>, r: Row)
    ensures Sum(Approved(rows + [r])) == Sum(Approved(rows)) + if r.approved then r.amount else 0
    ensures rows + [] == rows
  {
    var all := rows + [r];
    assert all[..|all| - 1] == rows;
    var kept := Approved(rows) + [r];
    assert kept[..|kept| - 1] == Approved(rows);
    assert Approved(rows) + [] == Approved(rows);
  }

  function Plus(p: Point, q: Point): Point {
    Point(p.revenue + q.revenue, p.previousRevenue + q.previousRevenue, p.commission + q.commission,
          p.previousCommission + q.previousCommission, p.conversions + q.conversions,
          p.previousConversions + q.previousConversions)
  }

  /** The amount of an approved row counted at a time in the interval. */
  function Amount(r: Row, start: int, end: int): int {
    if r.approved && start <= r.at < end then r.amount else 0
  }

  /** One more conversion adds its amount, if it is approved, to the revenue and one to the
      count, each of the interval it is counted in. */
  lemma ConversionAdds(b: Bucket, conversions: seq<Row>, commissions: seq<Row>, r: Row)
    ensures PointOf(b, conversions + [r], commissions)
         == Plus(PointOf(b, conversions, commissions),
                 Point(Amount(r, b.start, b.end), Amount(r, b.prevStart, b.prevEnd), 0, 0,
                       if b.start <= r.at < b.end then 1 else 0, if b.prevStart <= r.at < b.prevEnd then 1 else 0))
  {
    BetweenWith(conversions, b.start, b.end, r);
    BetweenWith(conversions, b.prevStart, b.prevEnd, r);
  }

  /** One more commission adds its amount, if it is approved, to the commission. */
  lemma CommissionAdds(b: Bucket, conversions: seq<Row>, commissions: seq<Row>, r: Row)
    ensures PointOf(b, conversions, commissions + [r])
         == Plus(PointOf(b, conversions, commissions),
                 Point(0, 0, Amount(r, b.start, b.end), Amount(r, b.prevStart, b.prevEnd), 0, 0))
  {
    BetweenWith(commissions, b.start, b.end, r);
    BetweenWith(commissions, b.prevStart, b.prevEnd, r);
  }

  lemma NoRows(b: Bucket)
    ensures PointOf(b, [], []) == Point(0, 0, 0, 0, 0, 0)
  {
  }

  lemma BetweenWith(rows: seq<Row>, a: int, b: int, r: Row)
    ensures Sum(Approved(Between(rows + [r], a, b)))
         == Sum(Approved(Between(rows, a, b))) + Amount(r, a, b)
    ensures |Between(rows + [r], a, b)| == |Between(rows, a, b)| + if a <= r.at < b then 1 else 0
  {
    assert (rows + [r])[..|rows|] == rows;
    SumWith(Between(rows, a, b), r);
  }

  function Total(points: seq<Point>): Point {
    if points == [] then Point(0, 0, 0, 0, 0, 0) else Plus(Total(points[..|points| - 1]), points[|points| - 1])
  }

  ghost predicate Grows(midnight: int -> int) {
    forall a, b :: a <= b ==> midnight(a) <= midnight(b)
  }

  lemma PointsSplit(b: Bucket, mid: int, prevMid: int, conversions: seq<Row>, commissions: seq<Row>)
    requires b.start <= mid <= b.end && b.prevStart <= prevMid <= b.prevEnd
    ensures PointOf(b, conversions, commissions)
         == Plus(PointOf(Bucket(b.start, mid, b.prevStart, prevMid), conversions, commissions),
                 PointOf(Bucket(mid, b.end, prevMid, b.prevEnd), conversions, commissions))
  {
    RowsSplit(conversions, b.start, mid, b.end);
    RowsSplit(conversions, b.prevStart, prevMid, b.prevEnd);
    RowsSplit(commissions, b.start, mid, b.end);
    RowsSplit(commissions, b.prevStart, prevMid, b.prevEnd);
  }

  /** Every bucket ends where the next one begins. */
  ghost predicate Chained(buckets: seq<Bucket>) {
    && (forall i :: 0 <= i < |buckets| ==>
          buckets[i].start <= buckets[i].end && buckets[i].prevStart <= buckets[i].prevEnd)
    && (forall i :: 0 <= i < |buckets| - 1 ==>
          buckets[i].end == buckets[i + 1].start && buckets[i].prevEnd == buckets[i + 1].prevStart)
  }

  function Whole(buckets: seq<Bucket>): Bucket
    requires buckets != []
  {
    var first, last := buckets[0], buckets[|buckets| - 1];
    Bucket(first.start, last.end, first.prevStart, last.prevEnd)
  }

  lemma BucketsChain(range: Range, today: int, midnight: int -> int)
    requires Grows(midnight)
    ensures Chained(Buckets(range, today, midnight))
  {
    var buckets := Buckets(range, today, midnight);
    forall i | 0 <= i < |buckets|
      ensures buckets[i].start <= buckets[i].end && buckets[i].prevStart <= buckets[i].prevEnd
      ensures i < |buckets| - 1 ==>
                buckets[i].end == buckets[i + 1].start && buckets[i].prevEnd == buckets[i + 1].prevStart
    {
      BucketsAreAdjacent(range, today, i);
    }
  }

  lemma {:induction false} ChainFront(buckets: seq<Bucket>)
    requires |buckets| > 1 && Chained(buckets)
    ensures Chained(buckets[..|buckets| - 1])
    ensures var w, last := Whole(buckets[..|buckets| - 1]), buckets[|buckets| - 1];
            && w.start <= w.end == last.start <= last.end
            && w.prevStart <= w.prevEnd == last.prevStart <= last.prevEnd
  {
    var front := buckets[..|buckets| - 1];
    assert front[|front| - 1] == buckets[|buckets| - 2];
    assert forall i :: 0 <= i < |front| ==> front[i] == buckets[i];
    if |front| > 1 {
      ChainFront(front);
    }
  }

  lemma {:induction false} ChainAddsUp(buckets: seq<Bucket>, conversions: seq<Row>, commissions: seq<Row>)
    requires buckets != [] && Chained(buckets)
    ensures Total(Points(buckets, conversions, commissions)) == PointOf(Whole(buckets), conversions, commissions)
  {
    var points := Points(buckets, conversions, commissions);
    if |buckets| == 1 {
      assert points == [points[0]] && points[..0] == [];
    } else {
      var front, last := buckets[..|buckets| - 1], buckets[|buckets| - 1];
      ChainFront(buckets);
      ChainAddsUp(front, conversions, commissions);
      assert points[..|points| - 1] == Points(front, conversions, commissions);
      PointsSplit(Whole(buckets), last.start, last.prevStart, conversions, commissions);
    }
  }

  /** The points of a series add up to the point of its whole span: no conversion or
      commission in the span is missed and none is counted twice. */
  lemma SeriesAddsUp(range: Range, today: int, midnight: int -> int, conversions: seq<Row>, commissions: seq<Row>)
    requires Grows(midnight) && Count(range) > 0
    ensures Total(Series(range, today, midnight, conversions, commissions))
         == PointOf(Times(midnight, Span(range, today)), conversions, commissions)
  {
    BucketsChain(range, today, midnight);
    ChainAddsUp(Buckets(range, today, midnight), conversions, commissions);
  }

  /** So do those of every request. */
  lemma RequestedSeriesAddsUp(range: string, months: nat, today: int, midnight: int -> int,
                              conversions: seq<Row>, commissions: seq<Row>)
    requires Grows(midnight)
    ensures Count(RangeOf(range, months)) > 0
    ensures Total(Series(RangeOf(range, months), today, midnight, conversions, commissions))
         == PointOf(Times(midnight, Span(RangeOf(range, months), today)), conversions, commissions)
  {
    RequestedSpanExact(range, months, today);
    SeriesAddsUp(RangeOf(range, months), today, midnight, conversions, commissions);
  }

  /** How many buckets a time falls into. */
  function Hits(buckets: seq<Bucket>, at: int): nat {
    if buckets == [] then 0
    else
      var last := buckets[|buckets| - 1];
      Hits(buckets[..|buckets| - 1], at) + if last.start <= at < last.end then 1 else 0
  }

  lemma {:induction false} ChainHits(buckets: seq<Bucket>, at: int)
    requires buckets != [] && Chained(buckets)
    ensures Hits(buckets, at) == if Whole(buckets).start <= at < Whole(buckets).end then 1 else 0
  {
    if |buckets| == 1 {
      assert Hits(buckets[..0], at) == 0;
    } else {
      ChainFront(buckets);
      ChainHits(buckets[..|buckets| - 1], at);
    }
  }

  /** Every time in the span falls into exactly one bucket, any other into none. */
  lemma OneBucketEach(range: Range, today: int, midnight: int -> int, at: int)
    requires Grows(midnight) && Count(range) > 0
    ensures Hits(Buckets(range, today, midnight), at)
         == if midnight(Span(range, today).start) <= at < midnight(Span(range, today).end) then 1 else 0
  {
    BucketsChain(range, today, midnight);
    ChainHits(Buckets(range, today, midnight), at);
  }

  // ----- hasData

  ghost predicate NoNegative(rows: seq<Row>) {
    forall i :: 0 <= i < |rows| ==> rows[i].amount >= 0
  }

  lemma {:induction false} SumIsPositive(rows: seq<Row>, a: int, b: int)
    requires NoNegative(rows)
    ensures Sum(Approved(Between(rows, a, b))) >= 0
    ensures Sum(Approved(Between(rows, a, b))) > 0 ==> |Between(rows, a, b)| > 0
  {
    if rows != [] {
      var front, last := rows[..|rows| - 1], rows[|rows| - 1];
      SumIsPositive(front, a, b);
      SumWith(Between(front, a, b), last);
    }
  }

  ghost predicate Sane(p: Point) {
    p.revenue >= 0 && p.previousRevenue >= 0 && p.conversions >= 0 && (p.revenue > 0 ==> p.conversions > 0)
  }

  lemma {:induction false} DataInTotal(points: seq<Point>)
    requires forall i :: 0 <= i < |points| ==> Sane(points[i])
    ensures HasData(points) <==> Total(points).conversions > 0 || Total(points).previousRevenue > 0
    ensures Total(points).conversions >= 0 && Total(points).previousRevenue >= 0
  {
    if points != [] {
      var front, last := points[..|points| - 1], points[|points| - 1];
      DataInTotal(front);
      assert Sane(last);
      if HasData(front) {
        var i :| 0 <= i < |front|
              && (front[i].revenue > 0 || front[i].conversions > 0 || front[i].previousRevenue > 0);
        assert points[i] == front[i];
      }
      if HasData(points) {
        var i :| 0 <= i < |points|
              && (points[i].revenue > 0 || points[i].conversions > 0 || points[i].previousRevenue > 0);
        if i < |front| {
          assert front[i] == points[i];
        }
      }
    }
  }

  /** Without negative amounts a series has data exactly when some conversion is in its span
      or some revenue in the span compared with. */
  lemma HasDataExact(range: Range, today: int, midnight: int -> int, conversions: seq<Row>, commissions: seq<Row>)
    requires Grows(midnight) && Count(range) > 0 && NoNegative(conversions)
    ensures var b := Times(midnight, Span(range, today));
            (HasData(Series(range, today, midnight, conversions, commissions))
             <==> (|Between(conversions, b.start, b.end)| > 0
                   || Sum(Approved(Between(conversions, b.prevStart, b.prevEnd))) > 0))
  {
    var buckets := Buckets(range, today, midnight);
    var points := Points(buckets, conversions, commissions);
    forall i | 0 <= i < |points|
      ensures Sane(points[i])
    {
      var b := buckets[i];
      SumIsPositive(conversions, b.start, b.end);
      SumIsPositive(conversions, b.prevStart, b.prevEnd);
    }
    DataInTotal(points);
    SeriesAddsUp(range, today, midnight, conversions, commissions);
  }
}
