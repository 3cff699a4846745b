/**
 `getOrganizationTopPrograms` of src/modules/analytics/analytics.service.ts (lines
 595-637) and the accumulation of `getOrganizationAffiliateMetrics` (lines 222-273).

 A Map is kept as the list of its entries in the order the keys were first set, the order
 in which a Map is iterated.  The rows given are those left after scoping to an
 organization, an environment and the requested program or affiliate.
 */
module TopPerformers {
  import opened RevenueSeries
  import opened Wrappers

  datatype Metrics = Metrics(id: string, revenue: int, conversions: nat, commission: int)

  /** Which id of a row performs: its program or its affiliate. */
  datatype Performer = Program | Affiliate

  function Id(who: Performer, r: Row): string {
    match who
    case Program => r.programId
    case Affiliate => r.affiliateId
  }

  // ----- filter and sum: what the accumulation should come to

  function Of(who: Performer, rows: seq<Row>, id: string): seq<Row> {
    if rows == [] then []
    else
      var last := rows[|rows| - 1];
      Of(who, rows[..|rows| - 1], id) + if Id(who, last) == id then [last] else []
  }

  /** The ids in the order of their first rows. */
  function Ids(who: Performer, rows: seq<Row>): seq<string> {
    if rows == [] then []
    else
      var ids, id := Ids(who, rows[..|rows| - 1]), Id(who, rows[|rows| - 1]);
      if id in ids then ids else ids + [id]
  }

  function MetricsOf(who: Performer, conversions: seq<Row>, commissions: seq<Row>, id: string): Metrics {
    var own := Of(who, conversions, id);
    Metrics(id, Sum(own), |own|, Sum(Of(who, commissions, id)))
  }

  function Table(who: Performer, conversions: seq<Row>, commissions: seq<Row>): (table: seq<Metrics>)
    ensures |table| == |Ids(who, conversions)|
    ensures forall i :: 0 <= i < |table| ==>
              table[i] == MetricsOf(who, conversions, commissions, Ids(who, conversions)[i])
  {
    seq(|Ids(who, conversions)|, i requires 0 <= i < |Ids(who, conversions)| =>
          MetricsOf(who, conversions, commissions, Ids(who, conversions)[i]))
  }

  lemma {:induction false} IdsExact(who: Performer, rows: seq<Row>)
    ensures forall i, j :: 0 <= i < j < |Ids(who, rows)| ==> Ids(who, rows)[i] != Ids(who, rows)[j]
    ensures forall id :: id in Ids(who, rows) <==> Of(who, rows, id) != []
  {
    if rows != [] {
      IdsExact(who, rows[..|rows| - 1]);
    }
  }

  /** The rows of one id are all rows with it, each as often as given. */
  lemma {:induction false} OfExact(who: Performer, rows: seq<Row>, id: string, r: Row)
    ensures multiset(Of(who, rows, id))[r]
         == if id == (if who == Program then r.programId else r.affiliateId) then multiset(rows)[r] else 0
  {
    if rows != [] {
      var front, last := rows[..|rows| - 1], rows[|rows| - 1];
      OfExact(who, front, id, r);
      SplitLast(rows);
      CountSnoc(front, last, r);
      CountSnoc(Of(who, front, id), last, r);
    }
  }

  /** Ids come in the order of their first rows: those of a part of the rows come first. */
  lemma {:induction false} IdsInOrder(who: Performer, rows: seq<Row>, k: nat)
    requires k <= |rows|
    ensures Ids(who, rows[..k]) <= Ids(who, rows)
    decreases |rows|
  {
    if k < |rows| {
      IdsInOrder(who, rows[..|rows| - 1], k);
      assert rows[..|rows| - 1][..k] == rows[..k];
    } else {
      assert rows[..k] == rows;
    }
  }

  // ----- the Map

  function IndexOf(map_: seq<Metrics>, id: string): (k: nat)
    ensures k <= |map_|
    ensures k < |map_| ==> map_[k].id == id
    ensures forall i :: 0 <= i < k ==> map_[i].id != id
  {
    if map_ == [] || map_[0].id == id then 0 else 1 + IndexOf(map_[1..], id)
  }

  /** `get(id) || { revenue: 0, conversions: 0, commission: 0 }` */
  function Get(map_: seq<Metrics>, id: string): (m: Metrics)
    ensures m.id == id
  {
    var k := IndexOf(map_, id);
    if k < |map_| then map_[k] else Metrics(id, 0, 0, 0)
  }

  /** `set(id, m)` */
  function Put(map_: seq<Metrics>, m: Metrics): seq<Metrics> {
    var k := IndexOf(map_, m.id);
    if k < |map_| then map_[k := m] else map_ + [m]
  }

  function AddConversion(m: Metrics, r: Row): Metrics {
    m.(revenue := m.revenue + r.amount, conversions := m.conversions + 1)
  }

  function AddCommission(m: Metrics, r: Row): Metrics {
    m.(commission := m.commission + r.amount)
  }

  lemma OfSnoc(who: Performer, rows: seq<Row>, r: Row, id: string)
    ensures Of(who, rows + [r], id) == if Id(who, r) == id then Of(who, rows, id) + [r] else Of(who, rows, id)
  {
    assert (rows + [r])[..|rows|] == rows;
  }

  lemma MetricsWithConversion(who: Performer, conversions: seq<Row>, r: Row, id: string)
    ensures MetricsOf(who, conversions + [r], [], id)
         == var m := MetricsOf(who, conversions, [], id); if Id(who, r) == id then AddConversion(m, r) else m
  {
    OfSnoc(who, conversions, r, id);
  }

  lemma MetricsWithCommission(who: Performer, conversions: seq<Row>, commissions: seq<Row>, r: Row, id: string)
    ensures MetricsOf(who, conversions, commissions + [r], id)
         == var m := MetricsOf(who, conversions, commissions, id);
            if Id(who, r) == id then AddCommission(m, r) else m
  {
    OfSnoc(who, commissions, r, id);
  }

  /** One more conversion changes its entry or sets a new one. */
  function WithConversion(map_: seq<Metrics>, id: string, r: Row): seq<Metrics> {
    Put(map_, AddConversion(Get(map_, id), r))
  }

  /** One more commission changes its entry, if it has one. */
  function WithCommission(map_: seq<Metrics>, id: string, r: Row): seq<Metrics> {
    var k := IndexOf(map_, id);
    if k < |map_| then map_[k := AddCommission(map_[k], r)] else map_
  }

  /** An id is looked up where it stands in the list of ids. */
  lemma IndexInTable(who: Performer, conversions: seq<Row>, commissions: seq<Row>, id: string)
    ensures var t, ids := Table(who, conversions, commissions), Ids(who, conversions);
            var k := IndexOf(t, id);
            && (k < |t| <==> id in ids)
            && (forall i :: 0 <= i < |t| ==> (ids[i] == id <==> i == k))
  {
    var t, ids := Table(who, conversions, commissions), Ids(who, conversions);
    IdsExact(who, conversions);
    assert forall i :: 0 <= i < |t| ==> t[i].id == ids[i];
  }

  lemma WithConversionAt(t: seq<Metrics>, t': seq<Metrics>, id: string, r: Row)
    requires var k := IndexOf(t, id);
             && |t'| == (if k < |t| then |t| else |t| + 1)
             && (forall i :: 0 <= i < |t| ==> t'[i] == if i == k then AddConversion(t[i], r) else t[i])
             && (k == |t| ==> t'[k] == AddConversion(Metrics(id, 0, 0, 0), r))
    ensures t' == WithConversion(t, id, r)
  {
  }

  /** What one more conversion does to an entry there was. */
  lemma OtherConversion(who: Performer, conversions: seq<Row>, r: Row, i: nat)
    requires i < |Ids(who, conversions)|
    ensures i < |Ids(who, conversions + [r])|
    ensures Table(who, conversions + [r], [])[i]
         == if i == IndexOf(Table(who, conversions, []), Id(who, r))
            then AddConversion(Table(who, conversions, [])[i], r) else Table(who, conversions, [])[i]
  {
    IndexInTable(who, conversions, [], Id(who, r));
    MetricsWithConversion(who, conversions, r, Ids(who, conversions)[i]);
  }

  lemma NewConversion(who: Performer, conversions: seq<Row>, r: Row)
    ensures var t, t' := Table(who, conversions, []), Table(who, conversions + [r], []);
            var k := IndexOf(t, Id(who, r));
            && |t'| == (if k < |t| then |t| else |t| + 1)
            && (k == |t| ==> t'[k] == AddConversion(Metrics(Id(who, r), 0, 0, 0), r))
  {
    IndexInTable(who, conversions, [], Id(who, r));
    if Id(who, r) !in Ids(who, conversions) {
      FirstConversion(who, conversions, r);
    }
  }

  lemma ConversionStep(who: Performer, conversions: seq<Row>, r: Row)
    ensures Table(who, conversions + [r], []) == WithConversion(Table(who, conversions, []), Id(who, r), r)
  {
    var t, t' := Table(who, conversions, []), Table(who, conversions + [r], []);
    NewConversion(who, conversions, r);
    forall i | 0 <= i < |t|
      ensures t'[i] == if i == IndexOf(t, Id(who, r)) then AddConversion(t[i], r) else t[i]
    {
      OtherConversion(who, conversions, r, i);
    }
    WithConversionAt(t, t', Id(who, r), r);
  }

  lemma FirstConversion(who: Performer, conversions: seq<Row>, r: Row)
    requires Id(who, r) !in Ids(who, conversions)
    ensures MetricsOf(who, conversions + [r], [], Id(who, r)) == AddConversion(Metrics(Id(who, r), 0, 0, 0), r)
  {
    IdsExact(who, conversions);
    MetricsWithConversion(who, conversions, r, Id(who, r));
  }

  lemma CommissionStep(who: Performer, conversions: seq<Row>, commissions: seq<Row>, r: Row)
    ensures Table(who, conversions, commissions + [r])
         == WithCommission(Table(who, conversions, commissions), Id(who, r), r)
  {
    var t, t' := Table(who, conversions, commissions), Table(who, conversions, commissions + [r]);
    IndexInTable(who, conversions, commissions, Id(who, r));
    var k := IndexOf(t, Id(who, r));
    forall i | 0 <= i < |t|
      ensures t'[i] == if i == k then AddCommission(t[i], r) else t[i]
    {
      MetricsWithCommission(who, conversions, commissions, r, Ids(who, conversions)[i]);
    }
  }

  // ----- sorting

  function Insert(m: Metrics, sorted: seq<Metrics>): seq<Metrics> {
    if sorted == [] || sorted[0].revenue < m.revenue then [m] + sorted
    else [sorted[0]] + Insert(m, sorted[1..])
  }

  /** `sort((a, b) => b.revenue - a.revenue)`: highest revenue first, equal ones in order. */
  function Sort(table: seq<Metrics>): seq<Metrics> {
    if table == [] then [] else Insert(table[|table| - 1], Sort(table[..|table| - 1]))
  }

  function WithRevenue(table: seq<Metrics>, revenue: int): seq<Metrics> {
    if table == [] then []
    else (if table[0].revenue == revenue then [table[0]] else []) + WithRevenue(table[1..], revenue)
  }

  ghost predicate AtMost(table: seq<Metrics>, revenue: int) {
    forall i :: 0 <= i < |table| ==> table[i].revenue <= revenue
  }

  ghost predicate Descending(table: seq<Metrics>) {
    table == [] || (AtMost(table[1..], table[0].revenue) && Descending(table[1..]))
  }

  lemma {:induction false} InsertIsDescending(m: Metrics, sorted: seq<Metrics>, bound: int)
    requires Descending(sorted)
    ensures Descending(Insert(m, sorted))
    ensures AtMost(sorted, bound) && m.revenue <= bound ==> AtMost(Insert(m, sorted), bound)
  {
    var r := Insert(m, sorted);
    assert r[1..] == if sorted == [] || sorted[0].revenue < m.revenue then sorted else Insert(m, sorted[1..]);
    if sorted != [] {
      InsertIsDescending(m, sorted[1..], bound);
      if sorted[0].revenue >= m.revenue {
        InsertIsDescending(m, sorted[1..], sorted[0].revenue);
      }
    }
  }

  lemma {:induction false} InsertAdds(m: Metrics, sorted: seq<Metrics>)
    ensures multiset(Insert(m, sorted)) == multiset(sorted) + multiset{m}
  {
    if sorted != [] && sorted[0].revenue >= m.revenue {
      InsertAdds(m, sorted[1..]);
      assert sorted == [sorted[0]] + sorted[1..];
    }
  }

  lemma {:induction false} InsertIsStable(m: Metrics, sorted: seq<Metrics>, revenue: int)
    requires Descending(sorted)
    ensures WithRevenue(Insert(m, sorted), revenue)
         == WithRevenue(sorted, revenue) + if m.revenue == revenue then [m] else []
  {
    var r := Insert(m, sorted);
    if sorted == [] || sorted[0].revenue < m.revenue {
      assert r[1..] == sorted;
      if m.revenue == revenue {
        NoneWithRevenue(sorted, revenue);
      }
    } else {
      InsertIsStable(m, sorted[1..], revenue);
      assert r[1..] == Insert(m, sorted[1..]);
    }
  }

  lemma {:induction false} NoneWithRevenue(table: seq<Metrics>, revenue: int)
    requires Descending(table) && (table == [] || table[0].revenue < revenue)
    ensures WithRevenue(table, revenue) == []
  {
    if |table| > 1 {
      assert table[1..][0] == table[1];
      NoneWithRevenue(table[1..], revenue);
    }
  }

  lemma {:induction false} WithRevenueSnoc(table: seq<Metrics>, m: Metrics, revenue: int)
    ensures WithRevenue(table + [m], revenue)
         == WithRevenue(table, revenue) + if m.revenue == revenue then [m] else []
  {
    if table != [] {
      WithRevenueSnoc(table[1..], m, revenue);
      assert (table + [m])[1..] == table[1..] + [m];
    }
  }

  /** Sorting orders by revenue and keeps every entry. */
  lemma {:induction false} SortSorts(table: seq<Metrics>)
    ensures Descending(Sort(table))
    ensures multiset(Sort(table)) == multiset(table)
  {
    if table != [] {
      var front, m := table[..|table| - 1], table[|table| - 1];
      LastEntry(table);
      SortSorts(front);
      InsertIsDescending(m, Sort(front), 0);
      InsertAdds(m, Sort(front));
    }
  }

  /** Entries of the same revenue keep their order. */
  lemma {:induction false} SortIsStable(table: seq<Metrics>, revenue: int)
    ensures WithRevenue(Sort(table), revenue) == WithRevenue(table, revenue)
  {
    if table != [] {
      var front, m := table[..|table| - 1], table[|table| - 1];
      LastEntry(table);
      SortIsStable(front, revenue);
      SortSorts(front);
      InsertIsStable(m, Sort(front), revenue);
      WithRevenueSnoc(front, m, revenue);
    }
  }

  function Top(table: seq<Metrics>, limit: nat): seq<Metrics> {
    var sorted := Sort(table);
    sorted[..if limit < |sorted| then limit else |sorted|]
  }

  // ----- the code

  method TopPrograms(conversions: seq<Row>, commissions: seq<Row>, limit: nat)
    returns (topPrograms: seq<Metrics>, totalRevenue: int)
    ensures totalRevenue == Sum(Approved(conversions))
    ensures topPrograms == Top(Table(Program, Approved(conversions), Approved(commissions)), limit)
  {
    var eligible, earned := Approved(conversions), Approved(commissions);
    totalRevenue := Sum(eligible);
    var programMetrics := AccumulateConversions(eligible);
    programMetrics := AccumulateCommissions(programMetrics, eligible, earned);
    topPrograms := Top(programMetrics, limit);
  }

  lemma LastEntry(table: seq<Metrics>)
    requires table != []
    ensures table == table[..|table| - 1] + [table[|table| - 1]]
  {
  }

  lemma NextRow(rows: seq<Row>, i: nat)
    requires i < |rows|
    ensures rows[..i + 1] == rows[..i] + [rows[i]]
  {
  }

  method CountConversion(map_: seq<Metrics>, r: Row) returns (programMetrics: seq<Metrics>)
    ensures programMetrics == WithConversion(map_, r.programId, r)
  {
    var prev := Get(map_, r.programId);
    prev := prev.(revenue := prev.revenue + r.amount, conversions := prev.conversions + 1);
    programMetrics := Put(map_, prev);
  }

  method AccumulateConversions(eligible: seq<Row>) returns (programMetrics: seq<Metrics>)
    ensures programMetrics == Table(Program, eligible, [])
  {
    programMetrics := [];
    for i := 0 to |eligible|
      invariant programMetrics == Table(Program, eligible[..i], [])
    {
      var r := eligible[i];
      NextRow(eligible, i);
      ConversionStep(Program, eligible[..i], r);
      programMetrics := CountConversion(programMetrics, r);
    }
    assert eligible[..|eligible|] == eligible;
  }

  method CountCommission(map_: seq<Metrics>, r: Row) returns (programMetrics: seq<Metrics>)
    ensures programMetrics == WithCommission(map_, r.programId, r)
  {
    programMetrics := map_;
    var k := IndexOf(map_, r.programId);
    if k < |map_| {
      var prev := map_[k];
      programMetrics := programMetrics[k := prev.(commission := prev.commission + r.amount)];
    }
  }

  method AccumulateCommissions(conversionMetrics: seq<Metrics>, ghost eligible: seq<Row>, earned: seq<Row>)
    returns (programMetrics: seq<Metrics>)
    requires conversionMetrics == Table(Program, eligible, [])
    ensures programMetrics == Table(Program, eligible, earned)
  {
    programMetrics := conversionMetrics;
    for i := 0 to |earned|
      invariant programMetrics == Table(Program, eligible, earned[..i])
    {
      var r := earned[i];
      NextRow(earned, i);
      CommissionStep(Program, eligible, earned[..i], r);
      programMetrics := CountCommission(programMetrics, r);
    }
    assert earned[..|earned|] == earned;
  }

  // ----- what follows

  function TotalRevenue(table: seq<Metrics>): int {
    if table == [] then 0 else TotalRevenue(table[..|table| - 1]) + table[|table| - 1].revenue
  }

  function TotalConversions(table: seq<Metrics>): int {
    if table == [] then 0 else TotalConversions(table[..|table| - 1]) + table[|table| - 1].conversions
  }

  lemma {:induction false} TotalsAfterChange(table: seq<Metrics>, k: nat, m: Metrics)
    requires k < |table|
    ensures TotalRevenue(table[k := m]) == TotalRevenue(table) + m.revenue - table[k].revenue
    ensures TotalConversions(table[k := m]) == TotalConversions(table) + m.conversions - table[k].conversions
  {
    var n := |table| - 1;
    if k < n {
      TotalsAfterChange(table[..n], k, m);
      assert table[k := m][..n] == table[..n][k := m];
    } else {
      assert table[k := m][..n] == table[..n];
    }
  }

  lemma TotalsWithConversion(table: seq<Metrics>, id: string, r: Row)
    ensures TotalRevenue(WithConversion(table, id, r)) == TotalRevenue(table) + r.amount
    ensures TotalConversions(WithConversion(table, id, r)) == TotalConversions(table) + 1
  {
    var k := IndexOf(table, id);
    if k < |table| {
      TotalsAfterChange(table, k, AddConversion(table[k], r));
    } else {
      var after := WithConversion(table, id, r);
      assert after[..|after| - 1] == table;
    }
  }

  lemma {:induction false} SameTotals(a: seq<Metrics>, b: seq<Metrics>)
    requires |a| == |b|
    requires forall i :: 0 <= i < |a| ==> a[i].revenue == b[i].revenue && a[i].conversions == b[i].conversions
    ensures TotalRevenue(a) == TotalRevenue(b) && TotalConversions(a) == TotalConversions(b)
  {
    if a != [] {
      SameTotals(a[..|a| - 1], b[..|b| - 1]);
    }
  }

  lemma {:induction false} ConversionsComeToTotal(who: Performer, conversions: seq<Row>)
    ensures TotalRevenue(Table(who, conversions, [])) == Sum(conversions)
    ensures TotalConversions(Table(who, conversions, [])) == |conversions|
  {
    if conversions != [] {
      var front, r := conversions[..|conversions| - 1], conversions[|conversions| - 1];
      assert conversions == front + [r];
      ConversionsComeToTotal(who, front);
      ConversionStep(who, front, r);
      TotalsWithConversion(Table(who, front, []), Id(who, r), r);
    }
  }

  /** The whole Map comes to the total revenue and to all conversions. */
  lemma MapComesToTotal(who: Performer, conversions: seq<Row>, commissions: seq<Row>)
    ensures TotalRevenue(Table(who, conversions, commissions)) == Sum(conversions)
    ensures TotalConversions(Table(who, conversions, commissions)) == |conversions|
  {
    ConversionsComeToTotal(who, conversions);
    SameTotals(Table(who, conversions, commissions), Table(who, conversions, []));
  }

  lemma {:induction false} DescendingSplit(top: seq<Metrics>, rest: seq<Metrics>, kept: nat, dropped: nat)
    requires Descending(top + rest) && kept < |top| && dropped < |rest|
    ensures top[kept].revenue >= rest[dropped].revenue
  {
    var all := top + rest;
    assert all[1..] == top[1..] + rest;
    if kept == 0 {
      assert all[1..][|top| - 1 + dropped] == rest[dropped];
    } else {
      DescendingSplit(top[1..], rest, kept - 1, dropped);
    }
  }

  /** The entries of a table are those kept and those dropped, and nothing dropped has more
      revenue than anything kept. */
  lemma TopIsTop(table: seq<Metrics>, limit: nat) returns (dropped: seq<Metrics>)
    ensures |Top(table, limit)| == if limit < |table| then limit else |table|
    ensures multiset(table) == multiset(Top(table, limit)) + multiset(dropped)
    ensures Descending(Top(table, limit) + dropped)
    ensures forall i, j :: 0 <= i < |Top(table, limit)| && 0 <= j < |dropped| ==>
              Top(table, limit)[i].revenue >= dropped[j].revenue
  {
    var sorted, top := Sort(table), Top(table, limit);
    SortSorts(table);
    assert |sorted| == |multiset(sorted)| == |multiset(table)| == |table|;
    dropped := sorted[|top|..];
    assert sorted == top + dropped;
    forall i, j | 0 <= i < |top| && 0 <= j < |dropped|
      ensures top[i].revenue >= dropped[j].revenue
    {
      DescendingSplit(top, dropped, i, j);
    }
  }
}
