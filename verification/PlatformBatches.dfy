/**
 The payout batches that every organization is given (`ensurePlatformPayouts` of
 src/modules/admin/admin-payouts.service.ts, lines 118-338).  Affiliates, gateways,
 accounts and dates of the items are not modelled.
 */
module PlatformBatches {
  import opened AdminLedger
  import opened Wrappers

  /** Amount, status, retries and reconciliation status of an item to be added. */
  datatype Part = Part(amount: int, status: ItemStatus, retryCount: int, reconciliation: string)

  /** One batch of items with its total. */
  function AddBatch(s: Ledger, organizationId: string, parts: seq<Part>, status: ItemStatus): Ledger {
    var added := AddItems(s.(nextId := s.nextId + 1), s.nextId, organizationId, parts);
    added.(batches := added.batches + [Batch(s.nextId, organizationId, status, PartsTotal(parts))])
  }

  function ItemOf(id: nat, batchId: nat, organizationId: string, part: Part): PayoutItem {
    PayoutItem(id, batchId, organizationId, part.amount, part.status, part.retryCount, part.reconciliation)
  }

  function AddItems(s: Ledger, batchId: nat, organizationId: string, parts: seq<Part>): Ledger
    decreases parts
  {
    if parts == [] then s
    else
      var part := parts[0];
      AddItems(s.(items := s.items + [ItemOf(s.nextId, batchId, organizationId, part)], nextId := s.nextId + 1),
               batchId, organizationId, parts[1..])
  }

  function PartsTotal(parts: seq<Part>): int {
    if parts == [] then 0 else parts[0].amount + PartsTotal(parts[1..])
  }

  const LAST_WEEK := [Part(425000, COMPLETED, 0, "MATCHED"), Part(280000, COMPLETED, 0, "MATCHED"),
                      Part(195000, COMPLETED, 0, "MATCHED")]
  const THREE_DAYS_AGO := [Part(310000, COMPLETED, 0, "MATCHED"), Part(175000, COMPLETED, 0, "MATCHED")]
  const YESTERDAY := [Part(220000, PROCESSING, 0, "PENDING"), Part(85000, FAILED, 1, "DISCREPANCY"),
                      Part(450000, HELD, 0, "PENDING"), Part(100000, COMPLETED, 0, "AMOUNT_MISMATCH")]

  function BatchCount(batches: seq<Batch>, organizationId: string): nat {
    if batches == [] then 0
    else BatchCount(batches[..|batches| - 1], organizationId)
         + (if batches[|batches| - 1].organizationId == organizationId then 1 else 0)
  }

  predicate NeedsBatches(s: Ledger, setup: Setup, org: Organization) {
    !org.deleted && BatchCount(s.batches, org.id) < 2 && org.id in setup.affiliates
  }

  function EnsureOrganization(s: Ledger, setup: Setup, org: Organization): Ledger {
    if !NeedsBatches(s, setup, org) then s
    else AddBatch(AddBatch(AddBatch(s, org.id, LAST_WEEK, COMPLETED), org.id, THREE_DAYS_AGO, COMPLETED),
                  org.id, YESTERDAY, PARTIALLY_FAILED)
  }

  function EnsureAll(s: Ledger, setup: Setup, orgs: seq<Organization>): Ledger
    decreases orgs
  {
    if orgs == [] then s else EnsureAll(EnsureOrganization(s, setup, orgs[0]), setup, orgs[1..])
  }

  /** `ensurePlatformPayouts` */
  function EnsurePlatformPayouts(s: Ledger, setup: Setup): Ledger {
    EnsureAll(s, setup, setup.organizations)
  }

  /** Drawn ids have not been used yet. */
  ghost predicate FreshIds(s: Ledger) {
    && (forall i :: 0 <= i < |s.items| ==> s.items[i].id < s.nextId && s.items[i].batchId < s.nextId)
    && (forall i :: 0 <= i < |s.batches| ==> s.batches[i].id < s.nextId)
  }

  /** The batches from the k-th on total their items. */
  ghost predicate BalancedFrom(s: Ledger, k: nat) {
    forall i :: k <= i < |s.batches| ==> s.batches[i].totalAmount == BatchSum(s.items, s.batches[i].id)
  }

  lemma {:induction false} AddItemsSums(s: Ledger, batchId: nat, organizationId: string, parts: seq<Part>)
    requires FreshIds(s) && batchId < s.nextId
    ensures var after := AddItems(s, batchId, organizationId, parts);
            && FreshIds(after) && after.batches == s.batches && after.nextId >= s.nextId
            && after.commissions == s.commissions && after.conversions == s.conversions
            && s.items <= after.items
            && forall b: nat ::
                 BatchSum(after.items, b) == BatchSum(s.items, b) + if b == batchId then PartsTotal(parts) else 0
    decreases parts
  {
    if parts != [] {
      var part := parts[0];
      var items := s.items + [ItemOf(s.nextId, batchId, organizationId, part)];
      assert items[..|items| - 1] == s.items;
      AddItemsSums(s.(items := items, nextId := s.nextId + 1), batchId, organizationId, parts[1..]);
    }
  }

  lemma {:induction false} UnusedBatchSum(items: seq<PayoutItem>, batchId: nat)
    requires forall i :: 0 <= i < |items| ==> items[i].batchId != batchId
    ensures BatchSum(items, batchId) == 0
  {
    if items != [] {
      UnusedBatchSum(items[..|items| - 1], batchId);
    }
  }

  lemma AddBatchBalances(s: Ledger, organizationId: string, parts: seq<Part>, status: ItemStatus, k: nat)
    requires FreshIds(s) && BalancedFrom(s, k)
    ensures var after := AddBatch(s, organizationId, parts, status);
            && FreshIds(after) && BalancedFrom(after, k)
            && after.commissions == s.commissions && after.conversions == s.conversions
            && s.items <= after.items && s.batches <= after.batches && |after.batches| == |s.batches| + 1
            && after.batches[|s.batches|].organizationId == organizationId
            && forall b: nat :: b < s.nextId ==> BatchSum(after.items, b) == BatchSum(s.items, b)
  {
    AddItemsSums(s.(nextId := s.nextId + 1), s.nextId, organizationId, parts);
    UnusedBatchSum(s.items, s.nextId);
  }

  lemma {:induction false} BatchCountAppend(a: seq<Batch>, b: seq<Batch>, organizationId: string)
    ensures BatchCount(a + b, organizationId) == BatchCount(a, organizationId) + BatchCount(b, organizationId)
    decreases |b|
  {
    if b == [] {
      assert a + b == a;
    } else {
      BatchCountAppend(a, b[..|b| - 1], organizationId);
      assert (a + b)[..|a + b| - 1] == a + b[..|b| - 1];
    }
  }

  /** What creating batches leaves in place. */
  ghost predicate Grown(s: Ledger, after: Ledger) {
    && after.commissions == s.commissions && after.conversions == s.conversions
    && s.items <= after.items && s.batches <= after.batches
  }

  lemma GrownCount(s: Ledger, after: Ledger, organizationId: string)
    requires Grown(s, after)
    ensures BatchCount(s.batches, organizationId) <= BatchCount(after.batches, organizationId)
  {
    BatchCountAppend(s.batches, after.batches[|s.batches|..], organizationId);
    assert after.batches == s.batches + after.batches[|s.batches|..];
  }

  lemma AddedToOne(s: Ledger, organizationId: string, parts: seq<Part>, status: ItemStatus, id: string)
    ensures BatchCount(AddBatch(s, organizationId, parts, status).batches, id)
         == BatchCount(s.batches, id) + if id == organizationId then 1 else 0
  {
    AddItemsBatches(s.(nextId := s.nextId + 1), s.nextId, organizationId, parts);
    var batches := AddBatch(s, organizationId, parts, status).batches;
    assert batches[..|batches| - 1] == s.batches;
  }

  lemma {:induction false} AddItemsBatches(s: Ledger, batchId: nat, organizationId: string, parts: seq<Part>)
    ensures AddItems(s, batchId, organizationId, parts).batches == s.batches
    decreases parts
  {
    if parts != [] {
      var part := parts[0];
      var items := s.items + [ItemOf(s.nextId, batchId, organizationId, part)];
      AddItemsBatches(s.(items := items, nextId := s.nextId + 1), batchId, organizationId, parts[1..]);
    }
  }

  lemma EnsureOneOrganization(s: Ledger, setup: Setup, org: Organization, k: nat)
    requires FreshIds(s) && BalancedFrom(s, k)
    ensures var after := EnsureOrganization(s, setup, org);
            FreshIds(after) && BalancedFrom(after, k) && Grown(s, after) && !NeedsBatches(after, setup, org)
  {
    if NeedsBatches(s, setup, org) {
      var first := AddBatch(s, org.id, LAST_WEEK, COMPLETED);
      var second := AddBatch(first, org.id, THREE_DAYS_AGO, COMPLETED);
      AddBatchBalances(s, org.id, LAST_WEEK, COMPLETED, k);
      AddBatchBalances(first, org.id, THREE_DAYS_AGO, COMPLETED, k);
      AddBatchBalances(second, org.id, YESTERDAY, PARTIALLY_FAILED, k);
      AddedToOne(s, org.id, LAST_WEEK, COMPLETED, org.id);
      AddedToOne(first, org.id, THREE_DAYS_AGO, COMPLETED, org.id);
      AddedToOne(second, org.id, YESTERDAY, PARTIALLY_FAILED, org.id);
    }
  }

  lemma {:induction false} EnsureServesAll(s: Ledger, setup: Setup, orgs: seq<Organization>, k: nat)
    requires FreshIds(s) && BalancedFrom(s, k)
    ensures var after := EnsureAll(s, setup, orgs);
            && FreshIds(after) && BalancedFrom(after, k) && Grown(s, after)
            && forall i :: 0 <= i < |orgs| ==> !NeedsBatches(after, setup, orgs[i])
    decreases orgs
  {
    if orgs != [] {
      var next := EnsureOrganization(s, setup, orgs[0]);
      EnsureOneOrganization(s, setup, orgs[0], k);
      EnsureServesAll(next, setup, orgs[1..], k);
      GrownCount(next, EnsureAll(next, setup, orgs[1..]), orgs[0].id);
    }
  }

  lemma {:induction false} NothingToEnsure(s: Ledger, setup: Setup, orgs: seq<Organization>)
    requires forall i :: 0 <= i < |orgs| ==> !NeedsBatches(s, setup, orgs[i])
    ensures EnsureAll(s, setup, orgs) == s
    decreases orgs
  {
    if orgs != [] {
      NothingToEnsure(s, setup, orgs[1..]);
    }
  }

  /** Ensuring the batches twice is ensuring them once; nothing that was there changes, and
      every batch created totals its items. */
  lemma EnsureIsIdempotent(s: Ledger, setup: Setup)
    requires FreshIds(s)
    ensures var after := EnsurePlatformPayouts(s, setup);
            && EnsurePlatformPayouts(after, setup) == after
            && Grown(s, after) && FreshIds(after)
            && BalancedFrom(after, |s.batches|)
  {
    EnsureServesAll(s, setup, setup.organizations, |s.batches|);
    NothingToEnsure(EnsurePlatformPayouts(s, setup), setup, setup.organizations);
  }

  /** An organization among these is not deleted, has an affiliate and fewer than two batches. */
  ghost predicate IsServed(s: Ledger, setup: Setup, orgs: seq<Organization>, id: string) {
    && BatchCount(s.batches, id) < 2 && id in setup.affiliates
    && exists i :: 0 <= i < |orgs| && orgs[i].id == id && !orgs[i].deleted
  }

  lemma OneServed(s: Ledger, setup: Setup, org: Organization, id: string)
    ensures BatchCount(EnsureOrganization(s, setup, org).batches, id)
         == BatchCount(s.batches, id) + if IsServed(s, setup, [org], id) then 3 else 0
  {
    assert IsServed(s, setup, [org], id) <==> NeedsBatches(s, setup, org) && org.id == id by {
      assert [org][0] == org;
    }
    if NeedsBatches(s, setup, org) {
      var first := AddBatch(s, org.id, LAST_WEEK, COMPLETED);
      var second := AddBatch(first, org.id, THREE_DAYS_AGO, COMPLETED);
      AddedToOne(s, org.id, LAST_WEEK, COMPLETED, id);
      AddedToOne(first, org.id, THREE_DAYS_AGO, COMPLETED, id);
      AddedToOne(second, org.id, YESTERDAY, PARTIALLY_FAILED, id);
    }
  }

  /** Served organizations get three batches, all others none. */
  lemma {:induction false} EnsureExact(s: Ledger, setup: Setup, orgs: seq<Organization>, id: string)
    ensures BatchCount(EnsureAll(s, setup, orgs).batches, id)
         == BatchCount(s.batches, id) + if IsServed(s, setup, orgs, id) then 3 else 0
    decreases orgs
  {
    if orgs != [] {
      var next := EnsureOrganization(s, setup, orgs[0]);
      OneServed(s, setup, orgs[0], id);
      EnsureExact(next, setup, orgs[1..], id);
      ServedFirst(s, setup, orgs, id);
      assert IsServed(s, setup, [orgs[0]], id) ==> !IsServed(next, setup, orgs[1..], id);
    }
  }

  lemma ServedFirst(s: Ledger, setup: Setup, orgs: seq<Organization>, id: string)
    requires orgs != []
    ensures IsServed(s, setup, orgs, id)
       <==> IsServed(s, setup, [orgs[0]], id) || IsServed(s, setup, orgs[1..], id)
  {
    assert [orgs[0]][0] == orgs[0];
    assert forall i :: 0 < i < |orgs| ==> orgs[i] == orgs[1..][i - 1];
    assert forall i :: 0 <= i < |orgs| - 1 ==> orgs[1..][i] == orgs[i + 1];
  }

  /** The amounts, statuses and totals of the batches of one organization. */
  lemma CreatedTotals(s: Ledger, setup: Setup, org: Organization)
    requires !org.deleted && BatchCount(s.batches, org.id) < 2 && org.id in setup.affiliates
    ensures var after, n := EnsureOrganization(s, setup, org), |s.batches|;
            && |after.batches| == n + 3 && s.batches == after.batches[..n]
            && (forall i :: n <= i < n + 3 ==> after.batches[i].organizationId == org.id)
            && after.batches[n].totalAmount == 900000 && after.batches[n].status == COMPLETED
            && after.batches[n + 1].totalAmount == 485000 && after.batches[n + 1].status == COMPLETED
            && after.batches[n + 2].totalAmount == 855000 && after.batches[n + 2].status == PARTIALLY_FAILED
  {
    var first := AddBatch(s, org.id, LAST_WEEK, COMPLETED);
    var second := AddBatch(first, org.id, THREE_DAYS_AGO, COMPLETED);
    NewBatch(s, org.id, LAST_WEEK, COMPLETED);
    NewBatch(first, org.id, THREE_DAYS_AGO, COMPLETED);
    NewBatch(second, org.id, YESTERDAY, PARTIALLY_FAILED);
    Totals();
  }

  /** What an organization that is served has been paid, and that all items are its own. */
  lemma CreatedItems(s: Ledger, setup: Setup, org: Organization)
    requires !org.deleted && BatchCount(s.batches, org.id) < 2 && org.id in setup.affiliates
    ensures var after, n := EnsureOrganization(s, setup, org), |s.items|;
            && |after.items| == n + 9 && s.items <= after.items
            && (forall i :: n <= i < n + 9 ==> after.items[i].organizationId == org.id)
            && CompletedSum(after.items) == CompletedSum(s.items) + 1485000
  {
    var first := AddBatch(s, org.id, LAST_WEEK, COMPLETED);
    var second := AddBatch(first, org.id, THREE_DAYS_AGO, COMPLETED);
    OwnItems(s, org.id, LAST_WEEK, COMPLETED);
    OwnItems(first, org.id, THREE_DAYS_AGO, COMPLETED);
    OwnItems(second, org.id, YESTERDAY, PARTIALLY_FAILED);
    CompletedTotals();
  }

  lemma OwnItems(s: Ledger, organizationId: string, parts: seq<Part>, status: ItemStatus)
    ensures var after, n := AddBatch(s, organizationId, parts, status).items, |s.items|;
            && |after| == n + |parts| && s.items <= after
            && (forall i :: n <= i < |after| ==> after[i].organizationId == organizationId)
            && CompletedSum(after) == CompletedSum(s.items) + CompletedParts(parts)
  {
    AddedItems(s, organizationId, parts, status);
  }

  /** The items of the parts, with ids of their own. */
  function ItemsOf(firstId: nat, batchId: nat, organizationId: string, parts: seq<Part>): (items: seq<PayoutItem>)
    ensures |items| == |parts|
  {
    seq(|parts|, i requires 0 <= i < |parts| =>
      PayoutItem(firstId + i, batchId, organizationId, parts[i].amount, parts[i].status, parts[i].retryCount,
                 parts[i].reconciliation))
  }

  /** A new batch adds the items of its parts and what is completed among them. */
  lemma AddedItems(s: Ledger, organizationId: string, parts: seq<Part>, status: ItemStatus)
    ensures var after, added := AddBatch(s, organizationId, parts, status).items,
                                ItemsOf(s.nextId + 1, s.nextId, organizationId, parts);
            after == s.items + added && CompletedSum(after) == CompletedSum(s.items) + CompletedParts(parts)
  {
    AddItemsExact(s.(nextId := s.nextId + 1), s.nextId, organizationId, parts);
    CompletedAppend(s.items, s.nextId + 1, s.nextId, organizationId, parts);
  }

  lemma {:induction false} AddItemsExact(s: Ledger, batchId: nat, organizationId: string, parts: seq<Part>)
    ensures AddItems(s, batchId, organizationId, parts).items
         == s.items + ItemsOf(s.nextId, batchId, organizationId, parts)
    decreases parts
  {
    if parts != [] {
      var item := ItemOf(s.nextId, batchId, organizationId, parts[0]);
      AddItemsExact(s.(items := s.items + [item], nextId := s.nextId + 1), batchId, organizationId, parts[1..]);
      FirstItem(s.nextId, batchId, organizationId, parts);
      Assoc(s.items, [item], ItemsOf(s.nextId + 1, batchId, organizationId, parts[1..]));
    }
  }

  lemma FirstItem(firstId: nat, batchId: nat, organizationId: string, parts: seq<Part>)
    requires parts != []
    ensures ItemsOf(firstId, batchId, organizationId, parts)
         == [ItemOf(firstId, batchId, organizationId, parts[0])]
            + ItemsOf(firstId + 1, batchId, organizationId, parts[1..])
  {
  }

  lemma {:induction false} CompletedAppend(items: seq<PayoutItem>, firstId: nat, batchId: nat, organizationId: string,
                                           parts: seq<Part>)
    ensures CompletedSum(items + ItemsOf(firstId, batchId, organizationId, parts))
         == CompletedSum(items) + CompletedParts(parts)
    decreases parts
  {
    if parts == [] {
      assert items + ItemsOf(firstId, batchId, organizationId, parts) == items;
    } else {
      var more := items + [ItemOf(firstId, batchId, organizationId, parts[0])];
      assert more[..|more| - 1] == items;
      FirstItem(firstId, batchId, organizationId, parts);
      Assoc(items, [ItemOf(firstId, batchId, organizationId, parts[0])],
            ItemsOf(firstId + 1, batchId, organizationId, parts[1..]));
      CompletedAppend(more, firstId + 1, batchId, organizationId, parts[1..]);
    }
  }

  function CompletedParts(parts: seq<Part>): int {
    if parts == [] then 0
    else (if parts[0].status == COMPLETED then parts[0].amount else 0) + CompletedParts(parts[1..])
  }

  lemma CompletedTotals()
    ensures CompletedParts(LAST_WEEK) == 900000
    ensures CompletedParts(THREE_DAYS_AGO) == 485000
    ensures CompletedParts(YESTERDAY) == 100000
  {
    assert LAST_WEEK[1..][1..] == [LAST_WEEK[2]];
    assert THREE_DAYS_AGO[1..] == [THREE_DAYS_AGO[1]];
    assert YESTERDAY[1..][1..][1..] == [YESTERDAY[3]];
  }

  lemma NewBatch(s: Ledger, organizationId: string, parts: seq<Part>, status: ItemStatus)
    ensures AddBatch(s, organizationId, parts, status).batches
         == s.batches + [Batch(s.nextId, organizationId, status, PartsTotal(parts))]
  {
    AddItemsBatches(s.(nextId := s.nextId + 1), s.nextId, organizationId, parts);
  }

  lemma Totals()
    ensures PartsTotal(LAST_WEEK) == 900000
    ensures PartsTotal(THREE_DAYS_AGO) == 485000
    ensures PartsTotal(YESTERDAY) == 855000
  {
    assert LAST_WEEK[1..][1..] == [LAST_WEEK[2]];
    assert THREE_DAYS_AGO[1..] == [THREE_DAYS_AGO[1]];
    assert YESTERDAY[1..][1..][1..] == [YESTERDAY[3]];
  }

  /** The created batches still total their items after any run of the administration. */
  lemma CreatedBatchesStayBalanced(s: Ledger, setup: Setup, run: seq<Step>)
    requires FreshIds(s)
    ensures BalancedFrom(TakeAll(EnsurePlatformPayouts(s, setup), setup, run), |s.batches|)
  {
    var created := EnsurePlatformPayouts(s, setup);
    EnsureIsIdempotent(s, setup);
    PayoutsAreConserved(created, setup, run, 0);
    forall i | |s.batches| <= i < |created.batches|
      ensures created.batches[i].totalAmount == BatchSum(TakeAll(created, setup, run).items, created.batches[i].id)
    {
      PayoutsAreConserved(created, setup, run, created.batches[i].id);
    }
  }

  // ----- runs that ensure batches in between

  /** Every hydrated listing ensures the batches first. */
  datatype PlatformStep = Ensure | Administer(step: Step)

  function TakePlatform(s: Ledger, setup: Setup, step: PlatformStep): Ledger {
    match step
    case Ensure => EnsurePlatformPayouts(s, setup)
    case Administer(step) => Take(s, setup, step)
  }

  function TakePlatformAll(s: Ledger, setup: Setup, run: seq<PlatformStep>): Ledger
    decreases run
  {
    if run == [] then s else TakePlatformAll(TakePlatform(s, setup, run[0]), setup, run[1..])
  }

  lemma StepKeepsNextId(s: Ledger, setup: Setup, step: Step)
    ensures Take(s, setup, step).nextId == s.nextId
  {
  }

  lemma StepKeepsBalance(s: Ledger, setup: Setup, step: Step, k: nat)
    requires FreshIds(s) && BalancedFrom(s, k)
    ensures FreshIds(Take(s, setup, step)) && BalancedFrom(Take(s, setup, step), k)
  {
    var after := Take(s, setup, step);
    StepKeepsPayouts(s, setup, step);
    StepKeepsNextId(s, setup, step);
    forall i | 0 <= i < |after.items|
      ensures after.items[i].id < after.nextId && after.items[i].batchId < after.nextId
    {
      assert SameMoney(s.items[i], after.items[i]);
    }
    forall i | k <= i < |after.batches|
      ensures after.batches[i].totalAmount == BatchSum(after.items, after.batches[i].id)
    {
      SameSums(s.items, after.items, s.batches[i].id);
    }
  }

  lemma PlatformStepKeepsBalance(s: Ledger, setup: Setup, step: PlatformStep, k: nat)
    requires FreshIds(s) && BalancedFrom(s, k)
    ensures var after := TakePlatform(s, setup, step);
            FreshIds(after) && BalancedFrom(after, k) && s.batches <= after.batches && |s.items| <= |after.items|
  {
    match step
    case Ensure =>
      EnsureServesAll(s, setup, setup.organizations, k);
    case Administer(step) =>
      StepKeepsBalance(s, setup, step, k);
      StepKeepsPayouts(s, setup, step);
  }

  /** In every run of the platform, whenever batches are ensured in between, no batch goes,
      and those that totalled their items and those created since still do. */
  lemma {:induction false} PlatformStaysBalanced(s: Ledger, setup: Setup, run: seq<PlatformStep>, k: nat)
    requires FreshIds(s) && BalancedFrom(s, k)
    ensures var after := TakePlatformAll(s, setup, run);
            FreshIds(after) && BalancedFrom(after, k) && s.batches <= after.batches && |s.items| <= |after.items|
    decreases run
  {
    if run != [] {
      PlatformStepKeepsBalance(s, setup, run[0], k);
      PlatformStaysBalanced(TakePlatform(s, setup, run[0]), setup, run[1..], k);
    }
  }
}
