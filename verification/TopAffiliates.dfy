/**
 The accumulation of `getOrganizationAffiliateMetrics` of
 src/modules/analytics/analytics.service.ts (lines 222-273): revenue, conversions and
 commissions are kept in three Maps and joined after the ten best are chosen.

 Only the revenue Map is iterated, so only it keeps its order; its entries have no
 conversions and commission yet.
 */
module TopAffiliates {
  import opened RevenueSeries
  import opened TopPerformers
  import opened Wrappers

  /** The rows that have an affiliate. */
  function Named(rows: seq<Row>): seq<Row> {
    if rows == [] then []
    else
      var last := rows[|rows| - 1];
      Named(rows[..|rows| - 1]) + if last.affiliateId != "" then [last] else []
  }

  lemma {:induction false} NamedExact(rows: seq<Row>, r: Row)
    ensures multiset(Named(rows))[r] == if r.affiliateId != "" then multiset(rows)[r] else 0
  {
    if rows != [] {
      var front, last := rows[..|rows| - 1], rows[|rows| - 1];
      NamedExact(front, r);
      SplitLast(rows);
      CountSnoc(front, last, r);
      CountSnoc(Named(front), last, r);
    }
  }

  lemma NamedSnoc(rows: seq<Row>, i: nat)
    requires i < |rows|
    ensures Named(rows[..i + 1]) == if rows[i].affiliateId != "" then Named(rows[..i]) + [rows[i]] else Named(rows[..i])
  {
    assert rows[..i + 1][..i] == rows[..i];
  }

  /** `map.get(id) || 0` */
  function Lookup(map_: map<string, int>, id: string): int {
    if id in map_ then map_[id] else 0
  }

  // ----- entries before the join

  function Bare(m: Metrics): Metrics {
    m.(conversions := 0, commission := 0)
  }

  function BareAll(table: seq<Metrics>): (bare: seq<Metrics>)
    ensures |bare| == |table|
    ensures forall i :: 0 <= i < |table| ==> bare[i] == Bare(table[i])
  {
    seq(|table|, i requires 0 <= i < |table| => Bare(table[i]))
  }

  lemma BarePut(table: seq<Metrics>, m: Metrics)
    ensures BareAll(Put(table, m)) == Put(BareAll(table), Bare(m))
  {
  }

  lemma BareGet(table: seq<Metrics>, id: string)
    ensures Get(BareAll(table), id) == Bare(Get(table, id))
  {
  }

  lemma {:induction false} BareInsert(m: Metrics, sorted: seq<Metrics>)
    ensures Insert(Bare(m), BareAll(sorted)) == BareAll(Insert(m, sorted))
  {
    if sorted != [] && sorted[0].revenue >= m.revenue {
      BareInsert(m, sorted[1..]);
      assert BareAll(sorted)[1..] == BareAll(sorted[1..]);
    }
  }

  /** Sorting looks at nothing but the revenue. */
  lemma {:induction false} BareSort(table: seq<Metrics>)
    ensures Sort(BareAll(table)) == BareAll(Sort(table))
  {
    if table != [] {
      var front := table[..|table| - 1];
      BareSort(front);
      assert BareAll(table)[..|table| - 1] == BareAll(front);
      BareInsert(table[|table| - 1], Sort(front));
    }
  }

  // ----- the loops

  function Earn(m: Metrics, r: Row): Metrics {
    m.(revenue := m.revenue + r.amount)
  }

  lemma BareWithConversion(table: seq<Metrics>, id: string, r: Row)
    ensures BareAll(WithConversion(table, id, r)) == Put(BareAll(table), Earn(Get(BareAll(table), id), r))
  {
    var m := AddConversion(Get(table, id), r);
    BarePut(table, m);
    BareGet(table, id);
    assert Bare(m) == Earn(Bare(Get(table, id)), r);
  }

  lemma RevenueStep(sofar: seq<Row>, r: Row)
    ensures var t := BareAll(Table(Affiliate, sofar, []));
            BareAll(Table(Affiliate, sofar + [r], [])) == Put(t, Earn(Get(t, r.affiliateId), r))
  {
    ConversionStep(Affiliate, sofar, r);
    BareWithConversion(Table(Affiliate, sofar, []), r.affiliateId, r);
  }

  ghost predicate RevenueOf(revenues: seq<Metrics>, rows: seq<Row>) {
    revenues == BareAll(Table(Affiliate, rows, []))
  }

  ghost predicate CountsOf(counts: map<string, int>, rows: seq<Row>) {
    forall id :: Lookup(counts, id) == |Of(Affiliate, rows, id)|
  }

  ghost predicate SumsOf(sums: map<string, int>, rows: seq<Row>) {
    forall id :: Lookup(sums, id) == Sum(Of(Affiliate, rows, id))
  }

  method CountConversion(revenues: seq<Metrics>, counts: map<string, int>, r: Row, ghost sofar: seq<Row>)
    returns (revenueByAffiliate: seq<Metrics>, conversionsByAffiliate: map<string, int>)
    requires RevenueOf(revenues, sofar) && CountsOf(counts, sofar)
    ensures RevenueOf(revenueByAffiliate, sofar + [r]) && CountsOf(conversionsByAffiliate, sofar + [r])
  {
    RevenueStep(sofar, r);
    CountStep(sofar, r, counts);
    revenueByAffiliate := Put(revenues, Earn(Get(revenues, r.affiliateId), r));
    conversionsByAffiliate := counts[r.affiliateId := Lookup(counts, r.affiliateId) + 1];
  }

  method CountConversions(eligible: seq<Row>)
    returns (revenueByAffiliate: seq<Metrics>, conversionsByAffiliate: map<string, int>)
    ensures RevenueOf(revenueByAffiliate, Named(eligible))
    ensures CountsOf(conversionsByAffiliate, Named(eligible))
  {
    revenueByAffiliate, conversionsByAffiliate := [], map[];
    for i := 0 to |eligible|
      invariant RevenueOf(revenueByAffiliate, Named(eligible[..i]))
      invariant CountsOf(conversionsByAffiliate, Named(eligible[..i]))
    {
      var r := eligible[i];
      NamedSnoc(eligible, i);
      if r.affiliateId == "" {
        continue;
      }
      revenueByAffiliate, conversionsByAffiliate :=
        CountConversion(revenueByAffiliate, conversionsByAffiliate, r, Named(eligible[..i]));
    }
    assert eligible[..|eligible|] == eligible;
  }

  lemma CountStep(sofar: seq<Row>, r: Row, counts: map<string, int>)
    requires CountsOf(counts, sofar)
    ensures CountsOf(counts[r.affiliateId := Lookup(counts, r.affiliateId) + 1], sofar + [r])
  {
    var after := counts[r.affiliateId := Lookup(counts, r.affiliateId) + 1];
    forall id
      ensures Lookup(after, id) == |Of(Affiliate, sofar + [r], id)|
    {
      OfSnoc(Affiliate, sofar, r, id);
    }
  }

  lemma SumStep(sofar: seq<Row>, r: Row, sums: map<string, int>)
    requires SumsOf(sums, sofar)
    ensures SumsOf(sums[r.affiliateId := Lookup(sums, r.affiliateId) + r.amount], sofar + [r])
  {
    var after := sums[r.affiliateId := Lookup(sums, r.affiliateId) + r.amount];
    forall id
      ensures Lookup(after, id) == Sum(Of(Affiliate, sofar + [r], id))
    {
      OfSnoc(Affiliate, sofar, r, id);
    }
  }

  method SumCommissions(earned: seq<Row>) returns (commissionsByAffiliate: map<string, int>)
    ensures SumsOf(commissionsByAffiliate, Named(earned))
  {
    commissionsByAffiliate := map[];
    for i := 0 to |earned|
      invariant SumsOf(commissionsByAffiliate, Named(earned[..i]))
    {
      var r := earned[i];
      NamedSnoc(earned, i);
      if r.affiliateId == "" {
        continue;
      }
      SumStep(Named(earned[..i]), r, commissionsByAffiliate);
      commissionsByAffiliate :=
        commissionsByAffiliate[r.affiliateId := Lookup(commissionsByAffiliate, r.affiliateId) + r.amount];
    }
    assert earned[..|earned|] == earned;
  }

  /** Every entry of the best ones is the metrics of its affiliate. */
  lemma TopAreMetrics(conversions: seq<Row>, commissions: seq<Row>, limit: nat, i: nat)
    requires i < |Top(Table(Affiliate, conversions, commissions), limit)|
    ensures var m := Top(Table(Affiliate, conversions, commissions), limit)[i];
            m == MetricsOf(Affiliate, conversions, commissions, m.id)
  {
    var t := Table(Affiliate, conversions, commissions);
    var m := Top(t, limit)[i];
    SortSorts(t);
    assert m == Sort(t)[i];
    assert m in multiset(Sort(t));
    assert m in t;
  }

  lemma BareTable(conversions: seq<Row>, commissions: seq<Row>)
    ensures BareAll(Table(Affiliate, conversions, [])) == BareAll(Table(Affiliate, conversions, commissions))
  {
  }

  lemma BareTop(table: seq<Metrics>, limit: nat)
    ensures Top(BareAll(table), limit) == BareAll(Top(table, limit))
  {
    BareSort(table);
  }

  method Join(best: seq<Metrics>, counts: map<string, int>, sums: map<string, int>, ghost full: seq<Metrics>)
    returns (joined: seq<Metrics>)
    requires best == BareAll(full)
    requires forall i :: 0 <= i < |full| ==>
               Lookup(counts, full[i].id) == full[i].conversions && Lookup(sums, full[i].id) == full[i].commission
    ensures joined == full
  {
    joined := [];
    for i := 0 to |best|
      invariant joined == full[..i]
    {
      var m := best[i];
      assert m == Bare(full[i]);
      joined := joined + [Metrics(m.id, m.revenue, Lookup(counts, m.id), Lookup(sums, m.id))];
    }
  }

  /** The three Maps joined after the selection give the ten best of the one table of
      revenue, conversions and commissions. */
  method AffiliateMetrics(conversions: seq<Row>, commissions: seq<Row>) returns (topAffiliates: seq<Metrics>)
    ensures topAffiliates == Top(Table(Affiliate, Named(Approved(conversions)), Named(Approved(commissions))), 10)
  {
    var eligible, earned := Approved(conversions), Approved(commissions);
    var revenueByAffiliate, conversionsByAffiliate := CountConversions(eligible);
    var commissionsByAffiliate := SumCommissions(earned);
    ghost var table := Table(Affiliate, Named(eligible), Named(earned));
    ghost var full := Top(table, 10);
    BareTable(Named(eligible), Named(earned));
    BareTop(table, 10);
    forall i | 0 <= i < |full|
      ensures Lookup(conversionsByAffiliate, full[i].id) == full[i].conversions
      ensures Lookup(commissionsByAffiliate, full[i].id) == full[i].commission
    {
      TopAreMetrics(Named(eligible), Named(earned), 10, i);
    }
    topAffiliates := Join(Top(revenueByAffiliate, 10), conversionsByAffiliate, commissionsByAffiliate, full);
  }
}
