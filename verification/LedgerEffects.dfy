/**
 What the steps of the administration do, told from the collections before and after them:
 clawback of the commissions of a conversion, the statuses of a commission, the terms a
 recalculation applies, and the statuses of payout items.
 */
module LedgerEffects {
  import opened AdminLedger
  import opened Rounding
  import opened Wrappers
  import Decimal

  // ----- conversions

  /** What the commissions of a conversion net. */
  function NetOf(list: seq<Commission>, conversionId: string): int {
    if list == [] then 0
    else
      var c := list[|list| - 1];
      NetOf(list[..|list| - 1], conversionId) + if c.conversionId == conversionId then Net(c) else 0
  }

  /** A commission that is eligible once it is approved. */
  predicate Payable(c: Commission) {
    c.payoutItemId == None || c.payoutStatus == Some(ELIGIBLE)
  }

  /** The commissions of a conversion that are eligible once they are approved. */
  function PayableOf(list: seq<Commission>, conversionId: string): int {
    if list == [] then 0
    else
      var c := list[|list| - 1];
      PayableOf(list[..|list| - 1], conversionId)
      + if c.conversionId == conversionId && Payable(c) then c.commissionAmount else 0
  }

  /** The eligible amount without the commissions of a conversion. */
  function EligibleElsewhere(list: seq<Commission>, conversionId: string): int {
    if list == [] then 0
    else
      var c := list[|list| - 1];
      EligibleElsewhere(list[..|list| - 1], conversionId)
      + if c.conversionId != conversionId && Eligible(c) then c.commissionAmount else 0
  }

  predicate Claws(status: Status) {
    status == REFUNDED || status == CHARGEBACK
  }

  predicate Passes(status: Status) {
    Claws(status) || status == APPROVED || status == REJECTED
  }

  /** A commission takes the new status of its conversion, if that is one of four; a clawback
      reverses it in full; nothing else about it changes. */
  ghost predicate FollowsOne(before: Commission, after: Commission, status: Status) {
    && after.status == (if Passes(status) then status else before.status)
    && after.reversedAmount == (if Claws(status) then before.commissionAmount else before.reversedAmount)
    && (Claws(status) ==> Net(after) == 0)
    && before.(status := after.status, reversedAmount := after.reversedAmount) == after
  }

  /** What changes in the sums. */
  ghost predicate SumsFollow(before: seq<Commission>, after: seq<Commission>, id: string, status: Status) {
    && SumNet(after) == SumNet(before) - (if Claws(status) then NetOf(before, id) else 0)
    && EligibleAmount(after)
       == if !Passes(status) then EligibleAmount(before)
          else EligibleElsewhere(before, id) + if status == APPROVED then PayableOf(before, id) else 0
  }

  /** The commissions of a conversion have followed it to a status and no other has changed. */
  ghost predicate Followed(before: seq<Commission>, after: seq<Commission>, id: string, status: Status) {
    && |after| == |before|
    && (forall i :: 0 <= i < |before| && before[i].conversionId == id ==> FollowsOne(before[i], after[i], status))
    && (forall i :: 0 <= i < |before| && before[i].conversionId != id ==> after[i] == before[i])
    && SumsFollow(before, after, id, status)
  }

  lemma {:induction false} SumsFollowAll(list: seq<Commission>, id: string, status: Status)
    ensures SumsFollow(list, FollowAll(list, id, status), id, status)
  {
    if list != [] {
      var k := |list| - 1;
      SumsFollowAll(list[..k], id, status);
      assert FollowAll(list, id, status)[..k] == FollowAll(list[..k], id, status);
    }
  }

  lemma AllFollow(list: seq<Commission>, id: string, status: Status)
    ensures Followed(list, FollowAll(list, id, status), id, status)
  {
    SumsFollowAll(list, id, status);
  }

  /** There is a conversion with the id and it is not approved after a rejection. */
  predicate Changeable(conversions: seq<Conversion>, id: string, status: Status) {
    var i := FindConversion(conversions, id);
    i < |conversions| && !(status == APPROVED && conversions[i].status == REJECTED)
  }

  /** The first conversion with the id has the status and nothing else has changed. */
  ghost predicate StatusSet(before: seq<Conversion>, after: seq<Conversion>, id: string, status: Status) {
    var k := FindConversion(before, id);
    && |after| == |before|
    && forall i :: 0 <= i < |before| ==> after[i] == if i == k then before[i].(status := status) else before[i]
  }

  /** A change of a conversion takes its commissions along: a refund or chargeback leaves them
      with nothing and the net total without what they netted, a rejection takes them out of
      the eligible amount, an approval puts them in, any other status leaves them alone. */
  lemma ConversionIsFollowed(s: Ledger, setup: Setup, id: string, status: Status)
    ensures var after := Take(s, setup, DoUpdateConversion(id, status));
            if Changeable(s.conversions, id, status) then
              && StatusSet(s.conversions, after.conversions, id, status)
              && Followed(s.commissions, after.commissions, id, status)
              && after.(conversions := s.conversions, commissions := s.commissions) == s
            else after == s
  {
    AllFollow(s.commissions, id, status);
  }

  // ----- commissions

  /** The status, the reversed amount and the payout status an update gives a commission. */
  ghost predicate Restated(before: Commission, after: Commission, status: Status) {
    && before.(status := after.status, reversedAmount := after.reversedAmount, payoutStatus := after.payoutStatus)
       == after
    && after.status == (if status == REVERSED then REFUNDED else status)
    && (Eligible(after) <==> status == APPROVED)
    && (Claws(after.status) ==> Net(after) == 0)
    && after.reversedAmount
       == (if Claws(after.status) then before.commissionAmount
           else if status == PENDING then 0 else before.reversedAmount)
    && after.payoutStatus
       == (if status.Other? then before.payoutStatus
           else if status == APPROVED then Some(ELIGIBLE)
           else if status == PENDING then Some(NOT_READY) else Some(CANCELLED_PAYOUT))
  }

  lemma {:induction false} SumsAfterChange(list: seq<Commission>, k: nat, c: Commission)
    requires k < |list|
    ensures SumNet(list[k := c]) == SumNet(list) - Net(list[k]) + Net(c)
    ensures EligibleAmount(list[k := c])
         == EligibleAmount(list) - (if Eligible(list[k]) then list[k].commissionAmount else 0)
            + (if Eligible(c) then c.commissionAmount else 0)
  {
    var n := |list| - 1;
    if k < n {
      SumsAfterChange(list[..n], k, c);
      assert list[k := c][..n] == list[..n][k := c];
    } else {
      assert list[k := c][..n] == list[..n];
    }
  }

  /** One commission is restated and the sums change by what it nets and earns. */
  ghost predicate OneRestated(before: seq<Commission>, after: seq<Commission>, k: nat, status: Status)
    requires k < |before|
  {
    && |after| == |before|
    && Restated(before[k], after[k], status)
    && (forall i :: 0 <= i < |before| && i != k ==> after[i] == before[i])
    && SumNet(after) == SumNet(before) - Net(before[k]) + Net(after[k])
    && EligibleAmount(after)
       == EligibleAmount(before) - (if Eligible(before[k]) then before[k].commissionAmount else 0)
          + (if Eligible(after[k]) then after[k].commissionAmount else 0)
  }

  lemma CommissionIsRestated(s: Ledger, setup: Setup, id: string, status: Status)
    ensures var after, k := Take(s, setup, DoUpdateCommission(id, status)), FindCommission(s.commissions, id);
            if k < |s.commissions| then
              OneRestated(s.commissions, after.commissions, k, status) && after.(commissions := s.commissions) == s
            else after == s
  {
    var k := FindCommission(s.commissions, id);
    if k < |s.commissions| {
      SumsAfterChange(s.commissions, k, WithStatus(s.commissions[k], status));
    }
  }

  /** Reversing a commission is refunding it. */
  lemma ReverseIsRefund(s: Ledger, setup: Setup, id: string)
    ensures Take(s, setup, DoReverse(id)) == Take(s, setup, DoUpdateCommission(id, REFUNDED))
  {
  }

  /** Putting a commission back to pending undoes whatever was done to its status, its
      reversal and its payout status. */
  lemma PendingUndoes(s: Ledger, setup: Setup, id: string, status: Status)
    ensures Take(Take(s, setup, DoUpdateCommission(id, status)), setup, DoUpdateCommission(id, PENDING))
         == Take(s, setup, DoUpdateCommission(id, PENDING))
  {
    var once, k := Take(s, setup, DoUpdateCommission(id, status)), FindCommission(s.commissions, id);
    if k < |s.commissions| {
      SamePlace(s.commissions, once.commissions, id);
      var twice := Take(once, setup, DoUpdateCommission(id, PENDING));
      assert twice.commissions == Take(s, setup, DoUpdateCommission(id, PENDING)).commissions;
    }
  }

  lemma SamePlace(before: seq<Commission>, after: seq<Commission>, id: string)
    requires |after| == |before| && forall i :: 0 <= i < |before| ==> after[i].id == before[i].id
    ensures FindCommission(after, id) == FindCommission(before, id)
  {
  }

  // ----- recalculation

  /** The rounded share of a base at a rate in basis points, half a unit rounded up. */
  ghost predicate IsShare(amount: int, base: int, rate: int) {
    -5000 < 10000 * amount - base * rate <= 5000
  }

  /** The rate and the amount of a commission by some terms; without terms they stay. */
  ghost predicate Applies(terms: Option<Terms>, rateIfNone: int, base: int, before: Commission, after: Commission) {
    match terms
    case None => after.rate == before.rate && after.commissionAmount == before.commissionAmount
    case Some(t) =>
      if !t.percentage then after.rate == before.rate && after.commissionAmount == t.commissionValue
      else
        && after.rate == (if t.commissionValue == 0 then rateIfNone else t.commissionValue)
        && IsShare(after.commissionAmount, base, after.rate)
  }

  lemma TermsApply(c: Commission, conversions: seq<Conversion>, setup: Setup, base: int)
    requires base == BaseOf(c, conversions)
    ensures var after := Recalculated(c, conversions, setup);
            var rule := if c.ruleId == None then None else FindTerms(setup.rules, c.ruleId.value);
            if rule.Some? then Applies(rule, 0, base, c, after)
            else Applies(FindTerms(setup.programs, c.programId), 1000, base, c, after)
  {
    var after := Recalculated(c, conversions, setup);
    RoundsHalfUp(base * after.rate);
  }

  /** A recalculation starts from the amount of the conversion, if there is one, and applies
      the rule of the commission, or else its program with ten percent for a rate of none. */
  lemma RecalculationExact(s: Ledger, setup: Setup, id: string)
    ensures var after, i := Take(s, setup, DoRecalculate(id)), FindCommission(s.commissions, id);
            if i == |s.commissions| then after == s
            else
              var c, r := s.commissions[i], after.commissions[i];
              var k := FindConversion(s.conversions, c.conversionId);
              var rule := if c.ruleId == None then None else FindTerms(setup.rules, c.ruleId.value);
              && after == s.(commissions := s.commissions[i := r])
              && c.(baseAmount := r.baseAmount, rate := r.rate, commissionAmount := r.commissionAmount,
                    version := r.version) == r
              && r.baseAmount == (if k < |s.conversions| then s.conversions[k].amount else c.baseAmount)
              && if rule.Some? then Applies(rule, 0, r.baseAmount, c, r)
                 else Applies(FindTerms(setup.programs, c.programId), 1000, r.baseAmount, c, r)
  {
    var i := FindCommission(s.commissions, id);
    if i < |s.commissions| {
      TermsApply(s.commissions[i], s.conversions, setup, BaseOf(s.commissions[i], s.conversions));
    }
  }

  /** A version without a number above 0, or none, counts as the first. */
  lemma NextOfUnnumbered(version: string)
    requires DigitsOf(version) == "" || Decimal.Parse(DigitsOf(version)) == 0
    ensures NextVersion(version) == Numbered(2)
  {
    if version == "" {
      assert Decimal.Show(1) == "1";
      NextOfNumbered(1);
    }
  }

  /** The digits of a text are those of its parts. */
  lemma {:induction false} DigitsOfJoin(a: string, b: string)
    ensures DigitsOf(a + b) == DigitsOf(a) + DigitsOf(b)
  {
    if a == "" {
      assert a + b == b;
    } else {
      DigitsOfJoin(a[1..], b);
      assert (a + b)[1..] == a[1..] + b;
      Assoc(if Decimal.IsDigit(a[0]) then [a[0]] else "", DigitsOf(a[1..]), DigitsOf(b));
    }
  }

  lemma DigitsOfOne(c: char)
    ensures DigitsOf([c]) == if '0' <= c <= '9' then [c] else ""
  {
    assert [c][1..] == "";
  }

  // ----- bulk forms

  /** Those of the ids for which `on` holds, in order. */
  function Those(ids: seq<string>, on: string -> bool): seq<string> {
    if ids == [] then []
    else Those(ids[..|ids| - 1], on) + if on(ids[|ids| - 1]) then [ids[|ids| - 1]] else []
  }

  lemma SameChangeable(s: Ledger, changed: string, status: Status, id: string)
    ensures Changeable(UpdateConversion(s, changed, status).0.conversions, id, status)
       <==> Changeable(s.conversions, id, status)
  {
    var before, after := s.conversions, UpdateConversion(s, changed, status).0.conversions;
    assert |after| == |before| && forall i :: 0 <= i < |before| ==> after[i].id == before[i].id;
    assert FindConversion(after, id) == FindConversion(before, id);
  }

  /** A bulk update reports exactly the ids that could be changed at the start. */
  lemma {:induction false} BulkConversionsReports(s: Ledger, ids: seq<string>, status: Status)
    ensures BulkConversions(s, ids, status).1 == Those(ids, id => Changeable(s.conversions, id, status))
    ensures forall id :: Changeable(BulkConversions(s, ids, status).0.conversions, id, status)
                    <==> Changeable(s.conversions, id, status)
  {
    if ids != [] {
      var k := |ids| - 1;
      var before := BulkConversions(s, ids[..k], status).0;
      BulkConversionsReports(s, ids[..k], status);
      forall id
        ensures Changeable(UpdateConversion(before, ids[k], status).0.conversions, id, status)
           <==> Changeable(before.conversions, id, status)
      {
        SameChangeable(before, ids[k], status, id);
      }
    }
  }

  predicate Known(commissions: seq<Commission>, id: string) {
    FindCommission(commissions, id) < |commissions|
  }

  lemma SameKnown(s: Ledger, changed: string, status: Status, id: string)
    ensures Known(UpdateCommission(s, changed, status).0.commissions, id) <==> Known(s.commissions, id)
  {
    SamePlace(s.commissions, UpdateCommission(s, changed, status).0.commissions, id);
  }

  lemma {:induction false} BulkCommissionsReports(s: Ledger, ids: seq<string>, status: Status)
    ensures BulkCommissions(s, ids, status).1 == Those(ids, id => Known(s.commissions, id))
    ensures forall id :: Known(BulkCommissions(s, ids, status).0.commissions, id) <==> Known(s.commissions, id)
  {
    if ids != [] {
      var k := |ids| - 1;
      var before := BulkCommissions(s, ids[..k], status).0;
      BulkCommissionsReports(s, ids[..k], status);
      forall id
        ensures Known(UpdateCommission(before, ids[k], status).0.commissions, id) <==> Known(before.commissions, id)
      {
        SameKnown(before, ids[k], status, id);
      }
    }
  }

  // ----- payout items

  /** A cancellation takes the commissions of the item out of it and makes them eligible, and
      changes nothing else but the status of the item. */
  lemma CancelExact(s: Ledger, setup: Setup, id: nat, i: nat)
    requires i < |s.commissions| && FindItem(s.items, id) < |s.items|
    requires CanGo(s.items[FindItem(s.items, id)].status, DoCancel(id))
    ensures var after, c := Take(s, setup, DoCancel(id)), s.commissions[i];
            && |after.commissions| == |s.commissions|
            && after.commissions[i]
               == (if c.payoutItemId == Some(id) then c.(payoutStatus := Some(ELIGIBLE), payoutItemId := None) else c)
            && after.(commissions := s.commissions, items := s.items) == s
  {
  }

  /** The status a step asks for. */
  function Asked(step: Step): Option<ItemStatus> {
    match step
    case DoApprove(_) => Some(SCHEDULED)
    case DoHold(_) => Some(HELD)
    case DoRetry(_) => Some(PROCESSING)
    case DoCancel(_) => Some(CANCELLED)
    case _ => None
  }

  /** From which statuses an item can go to the one asked for. */
  predicate CanGo(status: ItemStatus, step: Step) {
    if step.DoRetry? then status == FAILED || status == HELD else status != COMPLETED
  }

  /** A step that asks for a status fails for an item that is not there or cannot go there. */
  function OutcomeOf(items: seq<PayoutItem>, step: Step): Outcome
    requires IsPayoutStep(step)
  {
    var i := FindItem(items, step.itemId);
    if i == |items| then NotFound else if CanGo(items[i].status, step) then Done else BadRequest
  }

  /** An item changes its status exactly if the step names it and it can go there. */
  lemma ItemMoves(s: Ledger, setup: Setup, step: Step, i: nat)
    requires i < |s.items|
    ensures var before, items := s.items[i], Take(s, setup, step).items;
            && |items| == |s.items|
            && if IsPayoutStep(step) && Asked(step).Some? && i == FindItem(s.items, step.itemId)
                  && CanGo(before.status, step)
               then items[i].status == Asked(step).value
                    && items[i].retryCount == before.retryCount + (if step.DoRetry? then 1 else 0)
               else items[i].status == before.status && items[i].retryCount == before.retryCount
  {
    if IsPayoutStep(step) {
      PayoutStepItem(s, setup, step);
    } else {
      LedgerStepKeepsPayouts(s, setup, step);
    }
  }

  /** Only a resolution changes what reconciliation came to. */
  lemma ItemIsReconciled(s: Ledger, setup: Setup, step: Step, i: nat)
    requires i < |s.items|
    ensures var items := Take(s, setup, step).items;
            && |items| == |s.items|
            && items[i].reconciliation
               == if step.DoResolve? && i == FindItem(s.items, step.itemId)
                  then (if step.waived then "WAIVED" else "MATCHED") else s.items[i].reconciliation
  {
    if IsPayoutStep(step) {
      PayoutStepItem(s, setup, step);
    } else {
      LedgerStepKeepsPayouts(s, setup, step);
    }
  }
}
