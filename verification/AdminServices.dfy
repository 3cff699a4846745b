/**
 The two administration services as classes that update the collections in place.  Every
 method is proved against the function of AdminLedger that says what it does.
 */
module AdminServices {
  import opened AdminLedger
  import opened LedgerEffects
  import opened PlatformBatches
  import opened Rounding
  import opened Wrappers

  class AdminService {
    const setup: Setup
    var conversions: seq<Conversion>
    var commissions: seq<Commission>
    var items: seq<PayoutItem>
    var batches: seq<Batch>
    var nextId: nat

    constructor (setup: Setup, ledger: Ledger)
      ensures this.setup == setup && View() == ledger
    {
      this.setup := setup;
      conversions, commissions := ledger.conversions, ledger.commissions;
      items, batches, nextId := ledger.items, ledger.batches, ledger.nextId;
    }

    function View(): Ledger
      reads this
    {
      Ledger(conversions, commissions, items, batches, nextId)
    }

    method UpdateConversionStatus(id: string, status: Status) returns (outcome: Outcome)
      modifies this
      ensures (View(), outcome) == UpdateConversion(old(View()), id, status)
      ensures outcome == Done <==> Changeable(old(conversions), id, status)
      ensures outcome == NotFound <==> forall i :: 0 <= i < |old(conversions)| ==> old(conversions)[i].id != id
      ensures outcome == Done ==>
                && StatusSet(old(conversions), conversions, id, status)
                && Followed(old(commissions), commissions, id, status)
    {
      AllFollow(commissions, id, status);
      var i := FindConversion(conversions, id);
      if i == |conversions| {
        return NotFound;
      }
      if status == APPROVED && conversions[i].status == REJECTED {
        return BadRequest;
      }
      conversions := conversions[i := conversions[i].(status := status)];
      if status == APPROVED || status == REJECTED || status == REFUNDED || status == CHARGEBACK {
        for k := 0 to |commissions|
          invariant |commissions| == |old(commissions)|
          invariant forall j :: 0 <= j < |commissions| ==>
                      commissions[j] == if j < k then FollowAll(old(commissions), id, status)[j]
                                        else old(commissions)[j]
          invariant conversions == old(conversions)[i := old(conversions)[i].(status := status)]
          invariant items == old(items) && batches == old(batches) && nextId == old(nextId)
        {
          var comm := commissions[k];
          if comm.conversionId == id {
            comm := comm.(status := status);
            if status == REFUNDED || status == CHARGEBACK {
              comm := comm.(reversedAmount := comm.commissionAmount);
            }
            commissions := commissions[k := comm];
          }
        }
      }
      assert commissions == FollowAll(old(commissions), id, status);
      return Done;
    }

    method UpdateCommissionStatus(id: string, status: Status) returns (outcome: Outcome)
      modifies this
      ensures (View(), outcome) == UpdateCommission(old(View()), id, status)
      ensures outcome == if FindCommission(old(commissions), id) < |old(commissions)| then Done else NotFound
      ensures outcome == Done ==>
                OneRestated(old(commissions), commissions, FindCommission(old(commissions), id), status)
    {
      CommissionIsRestated(View(), setup, id, status);
      var i := FindCommission(commissions, id);
      if i == |commissions| {
        return NotFound;
      }
      var commission := commissions[i];
      match status {
        case APPROVED =>
          commission := commission.(status := APPROVED);
          commission := commission.(payoutStatus := Some(ELIGIBLE));
        case REJECTED =>
          commission := commission.(status := REJECTED);
          commission := commission.(payoutStatus := Some(CANCELLED_PAYOUT));
        case REFUNDED | REVERSED =>
          commission := commission.(status := REFUNDED);
          commission := commission.(reversedAmount := commission.commissionAmount);
          commission := commission.(payoutStatus := Some(CANCELLED_PAYOUT));
        case CHARGEBACK =>
          commission := commission.(status := CHARGEBACK);
          commission := commission.(reversedAmount := commission.commissionAmount);
          commission := commission.(payoutStatus := Some(CANCELLED_PAYOUT));
        case PENDING =>
          commission := commission.(status := PENDING);
          commission := commission.(payoutStatus := Some(NOT_READY));
          commission := commission.(reversedAmount := 0);
        case Other(_) =>
          commission := commission.(status := status);
      }
      commissions := commissions[i := commission];
      return Done;
    }

    method ReverseOne(id: string) returns (outcome: Outcome)
      modifies this
      ensures (View(), outcome) == ReverseCommission(old(View()), id)
      ensures outcome == if FindCommission(old(commissions), id) < |old(commissions)| then Done else NotFound
      ensures outcome == Done ==>
                OneRestated(old(commissions), commissions, FindCommission(old(commissions), id), REFUNDED)
    {
      CommissionIsRestated(View(), setup, id, REFUNDED);
      ReverseIsRefund(View(), setup, id);
      var i := FindCommission(commissions, id);
      if i == |commissions| {
        return NotFound;
      }
      var commission := commissions[i].(status := REFUNDED);
      commission := commission.(reversedAmount := commission.commissionAmount);
      commission := commission.(payoutStatus := Some(CANCELLED_PAYOUT));
      commissions := commissions[i := commission];
      return Done;
    }

    method RecalculateOne(id: string) returns (outcome: Outcome)
      modifies this
      ensures (View(), outcome) == Recalculate(old(View()), setup, id)
    {
      var i := FindCommission(commissions, id);
      if i == |commissions| {
        return NotFound;
      }
      var commission := commissions[i];
      var k := FindConversion(conversions, commission.conversionId);
      var program := FindTerms(setup.programs, commission.programId);
      var rule := if commission.ruleId == None then None else FindTerms(setup.rules, commission.ruleId.value);
      var baseAmount := if k < |conversions| then conversions[k].amount else commission.baseAmount;
      var rate, newCommissionAmount := commission.rate, commission.commissionAmount;
      if rule.Some? {
        if rule.value.percentage {
          rate := rule.value.commissionValue;
          newCommissionAmount := RoundBasisPoints(baseAmount * rate);
        } else {
          newCommissionAmount := rule.value.commissionValue;
        }
      } else if program.Some? {
        if program.value.percentage {
          rate := if program.value.commissionValue == 0 then 1000 else program.value.commissionValue;
          newCommissionAmount := RoundBasisPoints(baseAmount * rate);
        } else {
          newCommissionAmount := program.value.commissionValue;
        }
      }
      commission := commission.(baseAmount := baseAmount);
      commission := commission.(rate := rate);
      commission := commission.(commissionAmount := newCommissionAmount);
      commission := commission.(version := NextVersion(commission.version));
      commissions := commissions[i := commission];
      return Done;
    }

    method Approve(id: nat) returns (outcome: Outcome)
      modifies this
      ensures (View(), outcome) == ApprovePayout(old(View()), id)
      ensures outcome == OutcomeOf(old(items), DoApprove(id))
    {
      var i := FindItem(items, id);
      if i == |items| {
        return NotFound;
      }
      if items[i].status == COMPLETED {
        return BadRequest;
      }
      items := items[i := items[i].(status := SCHEDULED)];
      return Done;
    }

    method Hold(id: nat) returns (outcome: Outcome)
      modifies this
      ensures (View(), outcome) == HoldPayout(old(View()), id)
      ensures outcome == OutcomeOf(old(items), DoHold(id))
    {
      var i := FindItem(items, id);
      if i == |items| {
        return NotFound;
      }
      if items[i].status == COMPLETED {
        return BadRequest;
      }
      items := items[i := items[i].(status := HELD)];
      return Done;
    }

    method Retry(id: nat) returns (outcome: Outcome)
      modifies this
      ensures (View(), outcome) == RetryPayout(old(View()), id)
      ensures outcome == OutcomeOf(old(items), DoRetry(id))
    {
      var i := FindItem(items, id);
      if i == |items| {
        return NotFound;
      }
      if items[i].status != FAILED && items[i].status != HELD {
        return BadRequest;
      }
      var item := items[i].(status := PROCESSING);
      item := item.(retryCount := item.retryCount + 1);
      items := items[i := item];
      return Done;
    }

    method Cancel(id: nat) returns (outcome: Outcome)
      modifies this
      ensures (View(), outcome) == CancelPayout(old(View()), id)
      ensures outcome == OutcomeOf(old(items), DoCancel(id))
    {
      var i := FindItem(items, id);
      if i == |items| {
        return NotFound;
      }
      if items[i].status == COMPLETED {
        return BadRequest;
      }
      items := items[i := items[i].(status := CANCELLED)];
      for k := 0 to |commissions|
        invariant |commissions| == |old(commissions)|
        invariant forall j :: 0 <= j < |commissions| ==>
                    commissions[j] == if j < k then Unlink(old(commissions), id)[j] else old(commissions)[j]
        invariant items == old(items)[i := old(items)[i].(status := CANCELLED)]
        invariant conversions == old(conversions) && batches == old(batches) && nextId == old(nextId)
      {
        if commissions[k].payoutItemId == Some(id) {
          var c := commissions[k].(payoutStatus := Some(ELIGIBLE));
          c := c.(payoutItemId := None);
          commissions := commissions[k := c];
        }
      }
      assert commissions == Unlink(old(commissions), id);
      return Done;
    }

    method Resolve(id: nat, waived: bool) returns (outcome: Outcome)
      modifies this
      ensures (View(), outcome) == ResolveReconciliation(old(View()), id, waived)
    {
      var i := FindItem(items, id);
      if i == |items| {
        return NotFound;
      }
      items := items[i := items[i].(reconciliation := if waived then "WAIVED" else "MATCHED")];
      return Done;
    }

    /** One batch: its items are pushed while a running total is kept, then the batch. */
    method PushBatch(organizationId: string, parts: seq<Part>, status: ItemStatus)
      modifies this
      ensures View() == AddBatch(old(View()), organizationId, parts, status)
    {
      var batchId := nextId;
      nextId := nextId + 1;
      var total := 0;
      ghost var start := View();
      for k := 0 to |parts|
        invariant AddItems(View(), batchId, organizationId, parts[k..])
               == AddItems(start, batchId, organizationId, parts)
        invariant total + PartsTotal(parts[k..]) == PartsTotal(parts)
        invariant batches == old(batches)
      {
        total := total + parts[k].amount;
        items := items + [PayoutItem(nextId, batchId, organizationId, parts[k].amount, parts[k].status,
                                     parts[k].retryCount, parts[k].reconciliation)];
        nextId := nextId + 1;
        assert parts[k..][1..] == parts[k + 1..];
      }
      AddItemsBatches(start, batchId, organizationId, parts);
      batches := batches + [Batch(batchId, organizationId, status, total)];
    }

    method EnsurePayouts()
      modifies this
      ensures View() == EnsurePlatformPayouts(old(View()), setup)
    {
      for k := 0 to |setup.organizations|
        invariant EnsureAll(View(), setup, setup.organizations[k..])
               == EnsureAll(old(View()), setup, setup.organizations)
      {
        var org := setup.organizations[k];
        assert setup.organizations[k..][1..] == setup.organizations[k + 1..];
        if org.deleted || BatchCount(batches, org.id) >= 2 || org.id !in setup.affiliates {
          continue;
        }
        PushBatch(org.id, LAST_WEEK, COMPLETED);
        PushBatch(org.id, THREE_DAYS_AGO, COMPLETED);
        PushBatch(org.id, YESTERDAY, PARTIALLY_FAILED);
      }
    }

    method BulkUpdateConversionStatus(ids: seq<string>, status: Status) returns (updated: seq<string>)
      modifies this
      ensures (View(), updated) == BulkConversions(old(View()), ids, status)
    {
      updated := [];
      for k := 0 to |ids|
        invariant (View(), updated) == BulkConversions(old(View()), ids[..k], status)
      {
        var outcome := UpdateConversionStatus(ids[k], status);
        if outcome == Done {
          updated := updated + [ids[k]];
        }
        assert ids[..k + 1][..k] == ids[..k];
      }
      assert ids[..|ids|] == ids;
    }

    method BulkUpdateCommissionStatus(ids: seq<string>, status: Status) returns (updated: seq<string>)
      modifies this
      ensures (View(), updated) == BulkCommissions(old(View()), ids, status)
    {
      updated := [];
      for k := 0 to |ids|
        invariant (View(), updated) == BulkCommissions(old(View()), ids[..k], status)
      {
        var outcome := UpdateCommissionStatus(ids[k], status);
        if outcome == Done {
          updated := updated + [ids[k]];
        }
        assert ids[..k + 1][..k] == ids[..k];
      }
      assert ids[..|ids|] == ids;
    }
  }
}
