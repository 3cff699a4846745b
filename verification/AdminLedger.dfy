/**
 The money side of the platform administration: conversions, commissions and payout items
 as src/modules/admin/admin.service.ts and src/modules/admin/admin-payouts.service.ts
 update them, with the netting of src/common/utils/commission.utils.ts.

 Amounts are integers in minor units.  Generated ids are numbered in the order they are
 drawn.  Audit fields, dates and texts shown to people are not modelled.
 */
module AdminLedger {
  import opened Rounding
  import opened Wrappers
  import Decimal

  /** An upper-cased status; `Other` is any text that is none of the named ones. */
  datatype Status = PENDING | APPROVED | REJECTED | REFUNDED | REVERSED | CHARGEBACK | Other(text: string)

  datatype PayoutStatus = ELIGIBLE | CANCELLED_PAYOUT | NOT_READY | OtherPayout(text: string)

  datatype ItemStatus =
    | SCHEDULED | HELD | PROCESSING | COMPLETED | FAILED | CANCELLED | PARTIALLY_FAILED
    | OtherItem(text: string)

  datatype Conversion = Conversion(id: string, amount: int, status: Status)

  datatype Commission = Commission(
    id: string, conversionId: string, programId: string, ruleId: Option<string>, rate: int, baseAmount: int,
    commissionAmount: int, reversedAmount: int, version: string, status: Status,
    payoutStatus: Option<PayoutStatus>, payoutItemId: Option<nat>)

  datatype PayoutItem = PayoutItem(id: nat, batchId: nat, organizationId: string, amount: int,
                                   status: ItemStatus, retryCount: int, reconciliation: string)

  datatype Batch = Batch(id: nat, organizationId: string, status: ItemStatus, totalAmount: int)

  /** A commission rule or the default of a program. */
  datatype Terms = Terms(id: string, percentage: bool, commissionValue: int)

  datatype Organization = Organization(id: string, deleted: bool)

  /** The collections the services change. */
  datatype Ledger = Ledger(conversions: seq<Conversion>, commissions: seq<Commission>,
                           items: seq<PayoutItem>, batches: seq<Batch>, nextId: nat)

  /** The collections they only read; `affiliates` holds the organization of each. */
  datatype Setup = Setup(rules: seq<Terms>, programs: seq<Terms>,
                         organizations: seq<Organization>, affiliates: seq<string>)

  datatype Outcome = Done | NotFound | BadRequest

  // ----- looking up

  function FindConversion(list: seq<Conversion>, id: string): nat {
    Find(list, (c: Conversion) => c.id, id)
  }

  function FindCommission(list: seq<Commission>, id: string): nat {
    Find(list, (c: Commission) => c.id, id)
  }

  function FindItem(list: seq<PayoutItem>, id: nat): nat {
    Find(list, (item: PayoutItem) => item.id, id)
  }

  function FindTerms(list: seq<Terms>, id: string): Option<Terms> {
    var i := Find(list, (t: Terms) => t.id, id);
    if i == |list| then None else Some(list[i])
  }

  // ----- conversions and commissions

  /** What a change of its conversion does to a commission; other statuses leave it alone. */
  function FollowConversion(c: Commission, status: Status): Commission {
    match status
    case APPROVED => c.(status := APPROVED)
    case REJECTED => c.(status := REJECTED)
    case REFUNDED => c.(status := REFUNDED, reversedAmount := c.commissionAmount)
    case CHARGEBACK => c.(status := CHARGEBACK, reversedAmount := c.commissionAmount)
    case _ => c
  }

  function FollowAll(list: seq<Commission>, conversionId: string, status: Status): (r: seq<Commission>)
    ensures |r| == |list|
  {
    seq(|list|, i requires 0 <= i < |list| =>
      if list[i].conversionId == conversionId then FollowConversion(list[i], status) else list[i])
  }

  function UpdateConversion(s: Ledger, id: string, status: Status): (Ledger, Outcome) {
    var i := FindConversion(s.conversions, id);
    if i == |s.conversions| then (s, NotFound)
    else if status == APPROVED && s.conversions[i].status == REJECTED then (s, BadRequest)
    else (s.(conversions := s.conversions[i := s.conversions[i].(status := status)],
             commissions := FollowAll(s.commissions, id, status)), Done)
  }

  function WithStatus(c: Commission, status: Status): Commission {
    match status
    case APPROVED => c.(status := APPROVED, payoutStatus := Some(ELIGIBLE))
    case REJECTED => c.(status := REJECTED, payoutStatus := Some(CANCELLED_PAYOUT))
    case REFUNDED => Reversed(c)
    case REVERSED => Reversed(c)
    case CHARGEBACK =>
      c.(status := CHARGEBACK, reversedAmount := c.commissionAmount, payoutStatus := Some(CANCELLED_PAYOUT))
    case PENDING => c.(status := PENDING, payoutStatus := Some(NOT_READY), reversedAmount := 0)
    case Other(_) => c.(status := status)
  }

  function Reversed(c: Commission): Commission {
    c.(status := REFUNDED, reversedAmount := c.commissionAmount, payoutStatus := Some(CANCELLED_PAYOUT))
  }

  function UpdateCommission(s: Ledger, id: string, status: Status): (Ledger, Outcome) {
    var i := FindCommission(s.commissions, id);
    if i == |s.commissions| then (s, NotFound)
    else (s.(commissions := s.commissions[i := WithStatus(s.commissions[i], status)]), Done)
  }

  function ReverseCommission(s: Ledger, id: string): (Ledger, Outcome) {
    var i := FindCommission(s.commissions, id);
    if i == |s.commissions| then (s, NotFound)
    else (s.(commissions := s.commissions[i := Reversed(s.commissions[i])]), Done)
  }

  // ----- recalculation

  /** `replace(/\D/g, '')` */
  function DigitsOf(s: string): (digits: string)
    ensures Decimal.AllDigits(digits)
  {
    if s == "" then ""
    else (if Decimal.IsDigit(s[0]) then [s[0]] else "") + DigitsOf(s[1..])
  }

  function NextVersion(version: string): string {
    var digits := DigitsOf(if version == "" then "v1" else version);
    var number := if digits == "" || Decimal.Parse(digits) == 0 then 1 else Decimal.Parse(digits);
    "v" + Decimal.Show(number + 1)
  }

  /** The amount a recalculation starts from: that of the conversion if there is one. */
  function BaseOf(c: Commission, conversions: seq<Conversion>): int {
    var i := FindConversion(conversions, c.conversionId);
    if i < |conversions| then conversions[i].amount else c.baseAmount
  }

  /** The rate and the amount by the rule of a commission, or else by its program. */
  function NewTerms(c: Commission, base: int, setup: Setup): (int, int) {
    var rule := if c.ruleId == None then None else FindTerms(setup.rules, c.ruleId.value);
    var program := FindTerms(setup.programs, c.programId);
    if rule.Some? then
      if rule.value.percentage then (rule.value.commissionValue, RoundBasisPoints(base * rule.value.commissionValue))
      else (c.rate, rule.value.commissionValue)
    else if program.Some? then
      if program.value.percentage then
        var rate := if program.value.commissionValue == 0 then 1000 else program.value.commissionValue;
        (rate, RoundBasisPoints(base * rate))
      else (c.rate, program.value.commissionValue)
    else (c.rate, c.commissionAmount)
  }

  function Recalculated(c: Commission, conversions: seq<Conversion>, setup: Setup): Commission {
    var base := BaseOf(c, conversions);
    var (rate, amount) := NewTerms(c, base, setup);
    c.(baseAmount := base, rate := rate, commissionAmount := amount, version := NextVersion(c.version))
  }

  function Recalculate(s: Ledger, setup: Setup, id: string): (Ledger, Outcome) {
    var i := FindCommission(s.commissions, id);
    if i == |s.commissions| then (s, NotFound)
    else (s.(commissions := s.commissions[i := Recalculated(s.commissions[i], s.conversions, setup)]), Done)
  }

  // ----- payouts

  function WithItem(s: Ledger, i: nat, item: PayoutItem): Ledger
    requires i < |s.items|
  {
    s.(items := s.items[i := item])
  }

  function ApprovePayout(s: Ledger, id: nat): (Ledger, Outcome) {
    var i := FindItem(s.items, id);
    if i == |s.items| then (s, NotFound)
    else if s.items[i].status == COMPLETED then (s, BadRequest)
    else (WithItem(s, i, s.items[i].(status := SCHEDULED)), Done)
  }

  function HoldPayout(s: Ledger, id: nat): (Ledger, Outcome) {
    var i := FindItem(s.items, id);
    if i == |s.items| then (s, NotFound)
    else if s.items[i].status == COMPLETED then (s, BadRequest)
    else (WithItem(s, i, s.items[i].(status := HELD)), Done)
  }

  function RetryPayout(s: Ledger, id: nat): (Ledger, Outcome) {
    var i := FindItem(s.items, id);
    if i == |s.items| then (s, NotFound)
    else if s.items[i].status != FAILED && s.items[i].status != HELD then (s, BadRequest)
    else (WithItem(s, i, s.items[i].(status := PROCESSING, retryCount := s.items[i].retryCount + 1)), Done)
  }

  function ResolveReconciliation(s: Ledger, id: nat, waived: bool): (Ledger, Outcome) {
    var i := FindItem(s.items, id);
    if i == |s.items| then (s, NotFound)
    else (WithItem(s, i, s.items[i].(reconciliation := if waived then "WAIVED" else "MATCHED")), Done)
  }

  /** The commissions linked to an item become eligible again and lose the link. */
  function Unlink(list: seq<Commission>, itemId: nat): (r: seq<Commission>)
    ensures |r| == |list|
  {
    seq(|list|, i requires 0 <= i < |list| =>
      if list[i].payoutItemId == Some(itemId) then list[i].(payoutStatus := Some(ELIGIBLE), payoutItemId := None)
      else list[i])
  }

  function CancelPayout(s: Ledger, id: nat): (Ledger, Outcome) {
    var i := FindItem(s.items, id);
    if i == |s.items| then (s, NotFound)
    else if s.items[i].status == COMPLETED then (s, BadRequest)
    else (WithItem(s, i, s.items[i].(status := CANCELLED)).(commissions := Unlink(s.commissions, id)), Done)
  }

  // ----- sums

  function Net(c: Commission): int {
    if c.commissionAmount - c.reversedAmount < 0 then 0 else c.commissionAmount - c.reversedAmount
  }

  function SumNet(list: seq<Commission>): int {
    if list == [] then 0 else SumNet(list[..|list| - 1]) + Net(list[|list| - 1])
  }

  function SumReversed(list: seq<Commission>): int {
    if list == [] then 0 else SumReversed(list[..|list| - 1]) + list[|list| - 1].reversedAmount
  }

  function SumGross(list: seq<Commission>): int {
    if list == [] then 0 else SumGross(list[..|list| - 1]) + list[|list| - 1].commissionAmount
  }

  predicate Eligible(c: Commission) {
    c.status == APPROVED && (c.payoutItemId == None || c.payoutStatus == Some(ELIGIBLE))
  }

  function EligibleAmount(list: seq<Commission>): int {
    if list == [] then 0
    else EligibleAmount(list[..|list| - 1])
         + (if Eligible(list[|list| - 1]) then list[|list| - 1].commissionAmount else 0)
  }

  /** The approved commissions of an item that do not count as eligible yet. */
  function HeldBack(list: seq<Commission>, itemId: nat): int {
    if list == [] then 0
    else
      var c := list[|list| - 1];
      HeldBack(list[..|list| - 1], itemId)
      + (if c.status == APPROVED && c.payoutItemId == Some(itemId) && c.payoutStatus != Some(ELIGIBLE)
         then c.commissionAmount else 0)
  }

  function BatchSum(items: seq<PayoutItem>, batchId: nat): int {
    if items == [] then 0
    else BatchSum(items[..|items| - 1], batchId)
         + (if items[|items| - 1].batchId == batchId then items[|items| - 1].amount else 0)
  }

  function CompletedSum(items: seq<PayoutItem>): int {
    if items == [] then 0
    else CompletedSum(items[..|items| - 1])
         + (if items[|items| - 1].status == COMPLETED then items[|items| - 1].amount else 0)
  }

  // ----- clawback

  /** Nothing is reversed twice, and a refunded commission is reversed in full. */
  predicate Settled(c: Commission) {
    && 0 <= c.reversedAmount <= c.commissionAmount
    && (c.status == REFUNDED || c.status == CHARGEBACK ==> c.reversedAmount == c.commissionAmount)
  }

  ghost predicate AllSettled(list: seq<Commission>) {
    forall i :: 0 <= i < |list| ==> Settled(list[i])
  }

  /** Net plus reversed never falls short of gross, and equals it exactly when no commission
      is reversed beyond its amount. */
  lemma {:induction false} NetPlusReversed(list: seq<Commission>)
    ensures SumNet(list) + SumReversed(list) >= SumGross(list)
    ensures SumNet(list) + SumReversed(list) == SumGross(list)
       <==> forall i :: 0 <= i < |list| ==> list[i].reversedAmount <= list[i].commissionAmount
  {
    if list != [] {
      var k := |list| - 1;
      NetPlusReversed(list[..k]);
      assert forall i :: 0 <= i < k ==> list[..k][i] == list[i];
      if forall i :: 0 <= i < k ==> list[..k][i].reversedAmount <= list[..k][i].commissionAmount {
        assert list[k].reversedAmount <= list[k].commissionAmount
          ==> forall i :: 0 <= i < |list| ==> list[i].reversedAmount <= list[i].commissionAmount;
      }
    }
  }

  lemma {:induction false} SameGross(a: seq<Commission>, b: seq<Commission>)
    requires |a| == |b|
    requires forall i :: 0 <= i < |a| ==> a[i].commissionAmount == b[i].commissionAmount
    ensures SumGross(a) == SumGross(b)
  {
    if a != [] {
      SameGross(a[..|a| - 1], b[..|b| - 1]);
    }
  }

  datatype Step =
    | DoUpdateConversion(id: string, status: Status)
    | DoUpdateCommission(id: string, status: Status)
    | DoReverse(id: string)
    | DoRecalculate(id: string)
    | DoApprove(itemId: nat)
    | DoHold(itemId: nat)
    | DoRetry(itemId: nat)
    | DoCancel(itemId: nat)
    | DoResolve(itemId: nat, waived: bool)

  predicate IsPayoutStep(step: Step) {
    step.DoApprove? || step.DoHold? || step.DoRetry? || step.DoCancel? || step.DoResolve?
  }

  function Take(s: Ledger, setup: Setup, step: Step): Ledger {
    match step
    case DoUpdateConversion(id, status) => UpdateConversion(s, id, status).0
    case DoUpdateCommission(id, status) => UpdateCommission(s, id, status).0
    case DoReverse(id) => ReverseCommission(s, id).0
    case DoRecalculate(id) => Recalculate(s, setup, id).0
    case DoApprove(id) => ApprovePayout(s, id).0
    case DoHold(id) => HoldPayout(s, id).0
    case DoRetry(id) => RetryPayout(s, id).0
    case DoCancel(id) => CancelPayout(s, id).0
    case DoResolve(id, waived) => ResolveReconciliation(s, id, waived).0
  }

  function TakeAll(s: Ledger, setup: Setup, run: seq<Step>): Ledger
    decreases run
  {
    if run == [] then s else TakeAll(Take(s, setup, run[0]), setup, run[1..])
  }

  ghost predicate WithoutRecalculation(run: seq<Step>) {
    forall i :: 0 <= i < |run| ==> !run[i].DoRecalculate?
  }

  lemma StepSettles(s: Ledger, setup: Setup, step: Step)
    requires AllSettled(s.commissions) && !step.DoRecalculate?
    ensures AllSettled(Take(s, setup, step).commissions)
  {
  }

  lemma StepKeepsGross(s: Ledger, setup: Setup, step: Step)
    requires !step.DoRecalculate?
    ensures SumGross(Take(s, setup, step).commissions) == SumGross(s.commissions)
  {
    var after := Take(s, setup, step).commissions;
    assert |after| == |s.commissions|;
    assert forall i :: 0 <= i < |after| ==> after[i].commissionAmount == s.commissions[i].commissionAmount;
    SameGross(s.commissions, after);
  }

  /** Over every run without recalculation each refunded or charged-back commission nets
      nothing, and net and reversed money add up to the gross that was there at the start. */
  lemma {:induction false} MoneyIsConserved(s: Ledger, setup: Setup, run: seq<Step>)
    requires AllSettled(s.commissions) && WithoutRecalculation(run)
    ensures var after := TakeAll(s, setup, run).commissions;
            && AllSettled(after)
            && (forall i :: 0 <= i < |after| && (after[i].status == REFUNDED || after[i].status == CHARGEBACK) ==>
                  Net(after[i]) == 0)
            && SumNet(after) + SumReversed(after) == SumGross(after) == SumGross(s.commissions)
    decreases run
  {
    if run == [] {
      NetPlusReversed(s.commissions);
    } else {
      StepSettles(s, setup, run[0]);
      StepKeepsGross(s, setup, run[0]);
      assert WithoutRecalculation(run[1..]);
      MoneyIsConserved(Take(s, setup, run[0]), setup, run[1..]);
    }
  }

  /** The new terms cover what was reversed, and leave a refunded commission its amount. */
  predicate Covers(c: Commission, conversions: seq<Conversion>, setup: Setup) {
    var amount := NewTerms(c, BaseOf(c, conversions), setup).1;
    && c.reversedAmount <= amount
    && (c.status == REFUNDED || c.status == CHARGEBACK ==> amount == c.commissionAmount)
  }

  /** Whether a step is other than a recalculation whose terms do not cover. */
  predicate Harmless(s: Ledger, setup: Setup, step: Step) {
    step.DoRecalculate? ==>
      var i := FindCommission(s.commissions, step.id);
      i < |s.commissions| ==> Covers(s.commissions[i], s.conversions, setup)
  }

  /** A step keeps all commissions settled exactly when it is harmless. */
  lemma StepSettlesExactly(s: Ledger, setup: Setup, step: Step)
    requires AllSettled(s.commissions)
    ensures AllSettled(Take(s, setup, step).commissions) <==> Harmless(s, setup, step)
  {
    if step.DoRecalculate? {
      var i := FindCommission(s.commissions, step.id);
      if i < |s.commissions| {
        var after := Recalculated(s.commissions[i], s.conversions, setup);
        assert Settled(after) <==> Covers(s.commissions[i], s.conversions, setup);
        assert Take(s, setup, step).commissions == s.commissions[i := after];
        OneSettled(s.commissions, i, after);
      }
    } else {
      StepSettles(s, setup, step);
    }
  }

  function PercentageProgram(rate: int): Setup {
    Setup([], [Terms("p", true, rate)], [], [])
  }

  /** An approved commission of 10 percent of 10000. */
  function TenPercent(reversedAmount: int, status: Status): Commission {
    Commission("a", "", "p", None, 1000, 10000, 1000, reversedAmount, "v1", status, None, None)
  }

  lemma RecalculatedTenPercent(s: Ledger, reversedAmount: int, status: Status, rate: int)
    requires s.conversions == [] && rate != 0 && Settled(TenPercent(reversedAmount, status))
    ensures var before := s.(commissions := [TenPercent(reversedAmount, status)]);
            AllSettled(Take(before, PercentageProgram(rate), DoRecalculate("a")).commissions)
            <==> reversedAmount <= rate && (status == REFUNDED || status == CHARGEBACK ==> rate == 1000)
  {
    var before := s.(commissions := [TenPercent(reversedAmount, status)]);
    assert NewTerms(TenPercent(reversedAmount, status), 10000, PercentageProgram(rate)).1 == rate;
    StepSettlesExactly(before, PercentageProgram(rate), DoRecalculate("a"));
  }

  /** Two such steps: after the rate of its program has dropped, a partly reversed commission
      has more reversed than earned; after it has risen, a refunded one has money left. */
  lemma RecalculationUnsettles(s: Ledger)
    requires s.conversions == []
    ensures Settled(TenPercent(600, APPROVED)) && Settled(TenPercent(1000, REFUNDED))
    ensures var half := s.(commissions := [TenPercent(600, APPROVED)]);
            !AllSettled(Take(half, PercentageProgram(500), DoRecalculate("a")).commissions)
    ensures var full := s.(commissions := [TenPercent(1000, REFUNDED)]);
            !AllSettled(Take(full, PercentageProgram(2000), DoRecalculate("a")).commissions)
  {
    RecalculatedTenPercent(s, 600, APPROVED, 500);
    RecalculatedTenPercent(s, 1000, REFUNDED, 2000);
  }

  lemma OneSettled(list: seq<Commission>, i: nat, c: Commission)
    requires AllSettled(list) && i < |list|
    ensures AllSettled(list[i := c]) <==> Settled(c)
  {
    assert list[i := c][i] == c;
  }

  ghost predicate HarmlessRun(s: Ledger, setup: Setup, run: seq<Step>)
    decreases run
  {
    run == [] || (Harmless(s, setup, run[0]) && HarmlessRun(Take(s, setup, run[0]), setup, run[1..]))
  }

  /** With recalculations too, as long as each is harmless where it happens, refunded
      commissions net nothing and net plus reversed is the gross of the moment. */
  lemma {:induction false} MoneyWithRecalculation(s: Ledger, setup: Setup, run: seq<Step>)
    requires AllSettled(s.commissions) && HarmlessRun(s, setup, run)
    ensures var after := TakeAll(s, setup, run).commissions;
            && AllSettled(after)
            && (forall i :: 0 <= i < |after| && (after[i].status == REFUNDED || after[i].status == CHARGEBACK) ==>
                  Net(after[i]) == 0)
            && SumNet(after) + SumReversed(after) == SumGross(after)
    decreases run
  {
    if run == [] {
      NetPlusReversed(s.commissions);
    } else {
      StepSettlesExactly(s, setup, run[0]);
      MoneyWithRecalculation(Take(s, setup, run[0]), setup, run[1..]);
    }
  }

  /** Recalculating now would not change the amount. */
  predicate UpToDate(c: Commission, conversions: seq<Conversion>, setup: Setup) {
    NewTerms(c, BaseOf(c, conversions), setup).1 == c.commissionAmount
  }

  ghost predicate AllUpToDate(s: Ledger, setup: Setup) {
    forall i :: 0 <= i < |s.commissions| ==> UpToDate(s.commissions[i], s.conversions, setup)
  }

  lemma UpToDateIsHarmless(s: Ledger, setup: Setup, step: Step)
    requires AllSettled(s.commissions) && AllUpToDate(s, setup)
    ensures Harmless(s, setup, step)
  {
    if step.DoRecalculate? {
      var i := FindCommission(s.commissions, step.id);
      if i < |s.commissions| {
        assert Settled(s.commissions[i]) && UpToDate(s.commissions[i], s.conversions, setup);
      }
    }
  }

  /** What may change about a commission without changing what it recalculates to. */
  ghost predicate SameTerms(a: Commission, b: Commission) {
    && a.conversionId == b.conversionId && a.programId == b.programId && a.ruleId == b.ruleId
    && a.baseAmount == b.baseAmount && a.commissionAmount == b.commissionAmount
  }

  lemma StepKeepsConversionAmounts(s: Ledger, setup: Setup, step: Step)
    ensures var after := Take(s, setup, step).conversions;
            && |after| == |s.conversions|
            && (forall i :: 0 <= i < |after| ==>
                  s.conversions[i].id == after[i].id && s.conversions[i].amount == after[i].amount)
  {
  }

  lemma PayoutStepKeepsTerms(s: Ledger, setup: Setup, step: Step)
    requires IsPayoutStep(step)
    ensures var after := Take(s, setup, step).commissions;
            && |after| == |s.commissions|
            && (forall i :: 0 <= i < |after| ==> SameTerms(s.commissions[i], after[i]))
  {
  }

  lemma LedgerStepKeepsTerms(s: Ledger, setup: Setup, step: Step)
    requires !IsPayoutStep(step) && !step.DoRecalculate?
    ensures var after := Take(s, setup, step).commissions;
            && |after| == |s.commissions|
            && (forall i :: 0 <= i < |after| ==> SameTerms(s.commissions[i], after[i]))
  {
    match step
    case DoUpdateConversion(id, status) =>
      forall i | 0 <= i < |s.commissions|
        ensures SameTerms(s.commissions[i], FollowAll(s.commissions, id, status)[i])
      {
        StatusKeepsTerms(s.commissions[i], status);
      }
    case DoUpdateCommission(id, status) =>
      forall i | 0 <= i < |s.commissions|
        ensures SameTerms(s.commissions[i], UpdateCommission(s, id, status).0.commissions[i])
      {
        StatusKeepsTerms(s.commissions[i], status);
      }
    case DoReverse(id) =>
      forall i | 0 <= i < |s.commissions|
        ensures SameTerms(s.commissions[i], ReverseCommission(s, id).0.commissions[i])
      {
        StatusKeepsTerms(s.commissions[i], REFUNDED);
      }
  }

  lemma StatusKeepsTerms(c: Commission, status: Status)
    ensures SameTerms(c, FollowConversion(c, status)) && SameTerms(c, WithStatus(c, status))
  {
  }

  lemma RecalculatedIsUpToDate(c: Commission, conversions: seq<Conversion>, setup: Setup)
    ensures UpToDate(Recalculated(c, conversions, setup), conversions, setup)
  {
  }

  lemma RecalculationKeepsUpToDate(s: Ledger, setup: Setup, id: string)
    requires AllUpToDate(s, setup)
    ensures AllUpToDate(Recalculate(s, setup, id).0, setup)
    ensures SumGross(Recalculate(s, setup, id).0.commissions) == SumGross(s.commissions)
  {
    var i, after := FindCommission(s.commissions, id), Recalculate(s, setup, id).0.commissions;
    if i < |s.commissions| {
      var c := s.commissions[i];
      RecalculatedIsUpToDate(c, s.conversions, setup);
      assert UpToDate(c, s.conversions, setup);
      OneUpToDate(s.commissions, i, Recalculated(c, s.conversions, setup), s.conversions, setup);
      SameGross(s.commissions, after);
    }
  }

  lemma OneUpToDate(list: seq<Commission>, i: nat, c: Commission, conversions: seq<Conversion>, setup: Setup)
    requires i < |list| && UpToDate(c, conversions, setup)
    requires forall j :: 0 <= j < |list| ==> UpToDate(list[j], conversions, setup)
    ensures var after := list[i := c]; forall j :: 0 <= j < |after| ==> UpToDate(after[j], conversions, setup)
  {
  }

  lemma OtherStepKeepsUpToDate(s: Ledger, setup: Setup, step: Step)
    requires AllUpToDate(s, setup) && !step.DoRecalculate?
    ensures AllUpToDate(Take(s, setup, step), setup)
  {
    var after := Take(s, setup, step);
    StepKeepsConversionAmounts(s, setup, step);
    if IsPayoutStep(step) {
      PayoutStepKeepsTerms(s, setup, step);
    } else {
      LedgerStepKeepsTerms(s, setup, step);
    }
    forall i | 0 <= i < |after.commissions|
      ensures UpToDate(after.commissions[i], after.conversions, setup)
    {
      assert UpToDate(s.commissions[i], s.conversions, setup);
      SameTermsUpToDate(s.commissions[i], s.conversions, after.commissions[i], after.conversions, setup);
    }
  }

  lemma SameTermsUpToDate(a: Commission, before: seq<Conversion>, b: Commission, after: seq<Conversion>, setup: Setup)
    requires SameTerms(a, b) && BaseOf(a, before) == BaseOf(a, after)
    ensures UpToDate(a, before, setup) <==> UpToDate(b, after, setup)
  {
  }

  lemma StepKeepsUpToDate(s: Ledger, setup: Setup, step: Step)
    requires AllUpToDate(s, setup)
    ensures AllUpToDate(Take(s, setup, step), setup)
    ensures SumGross(Take(s, setup, step).commissions) == SumGross(s.commissions)
  {
    if step.DoRecalculate? {
      RecalculationKeepsUpToDate(s, setup, step.id);
    } else {
      OtherStepKeepsUpToDate(s, setup, step);
      StepKeepsGross(s, setup, step);
    }
  }

  /** If at the start every commission is settled and worth what its terms say, then over
      every run, with recalculations anywhere, money is conserved as without. */
  lemma {:induction false} MoneyWhenUpToDate(s: Ledger, setup: Setup, run: seq<Step>)
    requires AllSettled(s.commissions) && AllUpToDate(s, setup)
    ensures var after := TakeAll(s, setup, run).commissions;
            && HarmlessRun(s, setup, run) && AllSettled(after)
            && SumNet(after) + SumReversed(after) == SumGross(after) == SumGross(s.commissions)
    decreases run
  {
    if run == [] {
      NetPlusReversed(s.commissions);
    } else {
      UpToDateIsHarmless(s, setup, run[0]);
      StepSettlesExactly(s, setup, run[0]);
      StepKeepsUpToDate(s, setup, run[0]);
      MoneyWhenUpToDate(Take(s, setup, run[0]), setup, run[1..]);
    }
  }

  /** Where the new amount is a rounded product of base and rate, the terms cover exactly when
      the product does, to half a unit, and for a refunded commission rounds to the old
      amount. */
  lemma CoversPercentage(c: Commission, conversions: seq<Conversion>, setup: Setup, product: int)
    requires NewTerms(c, BaseOf(c, conversions), setup).1 == RoundBasisPoints(product)
    ensures Covers(c, conversions, setup) <==>
              && 10000 * c.reversedAmount <= product + 5000
              && (c.status == REFUNDED || c.status == CHARGEBACK ==>
                    10000 * c.commissionAmount <= product + 5000 && product + 5000 < 10000 * (c.commissionAmount + 1))
  {
    RoundCovers(product, c.reversedAmount);
    RoundCovers(product, c.commissionAmount);
    RoundCovers(product, c.commissionAmount + 1);
  }

  lemma PercentageRule(c: Commission, base: int, setup: Setup, rule: Terms)
    requires c.ruleId.Some? && FindTerms(setup.rules, c.ruleId.value) == Some(rule) && rule.percentage
    ensures NewTerms(c, base, setup) == (rule.commissionValue, RoundBasisPoints(base * rule.commissionValue))
  {
  }

  // ----- recalculating

  /** The version a commission shows after `k` recalculations. */
  function VersionAfter(version: string, k: nat): string {
    if k == 0 then version else NextVersion(VersionAfter(version, k - 1))
  }

  lemma {:induction false} DigitsOfDigits(s: string)
    requires Decimal.AllDigits(s)
    ensures DigitsOf(s) == s && DigitsOf("v" + s) == s
  {
    assert ("v" + s)[1..] == s;
    if s != "" {
      DigitsOfDigits(s[1..]);
      assert s == [s[0]] + s[1..];
    }
  }

  /** `vN` */
  function Numbered(n: nat): string {
    "v" + Decimal.Show(n)
  }

  lemma NextOfNumbered(n: nat)
    ensures NextVersion(Numbered(n)) == Numbered((if n == 0 then 1 else n) + 1)
  {
    DigitsOfDigits(Decimal.Show(n));
    Decimal.ParseShow(n);
  }

  lemma {:induction false} VersionsCount(n: nat, k: nat)
    requires n >= 1
    ensures VersionAfter(Numbered(n), k) == Numbered(n + k)
    decreases k
  {
    if k > 0 {
      VersionsCount(n, k - 1);
      OneVersionMore(VersionAfter(Numbered(n), k - 1), n + k - 1);
    }
  }

  lemma OneVersionMore(version: string, n: nat)
    requires version == Numbered(n) && n >= 1
    ensures NextVersion(version) == Numbered(n + 1)
  {
    NextOfNumbered(n);
  }

  /** With conversion, rule and program unchanged a second recalculation changes nothing but
      the version. */
  lemma RecalculationIsStable(c: Commission, conversions: seq<Conversion>, setup: Setup)
    ensures var once := Recalculated(c, conversions, setup);
            Recalculated(once, conversions, setup) == once.(version := NextVersion(once.version))
  {
  }

  // ----- payouts

  /** What no administration step changes about a payout item. */
  ghost predicate SameMoney(a: PayoutItem, b: PayoutItem) {
    && a.id == b.id && a.batchId == b.batchId && a.organizationId == b.organizationId && a.amount == b.amount
    && (a.status == COMPLETED <==> b.status == COMPLETED)
  }

  lemma LedgerStepKeepsPayouts(s: Ledger, setup: Setup, step: Step)
    requires !IsPayoutStep(step)
    ensures Take(s, setup, step).batches == s.batches && Take(s, setup, step).items == s.items
  {
  }

  /** A payout step changes at most the item it names. */
  lemma PayoutStepItem(s: Ledger, setup: Setup, step: Step)
    requires IsPayoutStep(step)
    ensures var after, i := Take(s, setup, step), FindItem(s.items, step.itemId);
            && after.batches == s.batches && |after.items| == |s.items|
            && (i == |s.items| ==> after.items == s.items)
            && (i < |s.items| ==> after.items == s.items[i := after.items[i]] && SameMoney(s.items[i], after.items[i]))
  {
  }

  lemma PayoutStepKeepsMoney(s: Ledger, setup: Setup, step: Step)
    requires IsPayoutStep(step)
    ensures var after := Take(s, setup, step);
            && after.batches == s.batches && |after.items| == |s.items|
            && forall i :: 0 <= i < |s.items| ==> SameMoney(s.items[i], after.items[i])
  {
    PayoutStepItem(s, setup, step);
    OneItemKept(s.items, Take(s, setup, step).items, FindItem(s.items, step.itemId));
  }

  lemma OneItemKept(items: seq<PayoutItem>, after: seq<PayoutItem>, i: nat)
    requires i <= |items| == |after|
    requires i == |items| ==> after == items
    requires i < |items| ==> after == items[i := after[i]] && SameMoney(items[i], after[i])
    ensures forall k :: 0 <= k < |items| ==> SameMoney(items[k], after[k])
  {
  }

  lemma StepKeepsPayouts(s: Ledger, setup: Setup, step: Step)
    ensures var after := Take(s, setup, step);
            && after.batches == s.batches && |after.items| == |s.items|
            && forall i :: 0 <= i < |s.items| ==> SameMoney(s.items[i], after.items[i])
  {
    if IsPayoutStep(step) {
      PayoutStepKeepsMoney(s, setup, step);
    } else {
      LedgerStepKeepsPayouts(s, setup, step);
      forall i | 0 <= i < |s.items|
        ensures SameMoney(s.items[i], s.items[i])
      {
      }
    }
  }

  lemma {:induction false} SameSums(a: seq<PayoutItem>, b: seq<PayoutItem>, batchId: nat)
    requires |a| == |b| && forall i :: 0 <= i < |a| ==> SameMoney(a[i], b[i])
    ensures BatchSum(a, batchId) == BatchSum(b, batchId) && CompletedSum(a) == CompletedSum(b)
  {
    if a != [] {
      var k := |a| - 1;
      assert forall i :: 0 <= i < k ==> a[..k][i] == a[i] && b[..k][i] == b[i];
      SameSums(a[..k], b[..k], batchId);
    }
  }

  /** Over every run the items of a batch keep their sum, and the completed items and their
      total stay as they are: nothing is paid twice and nothing paid is taken back. */
  lemma {:induction false} PayoutsAreConserved(s: Ledger, setup: Setup, run: seq<Step>, batchId: nat)
    ensures var after := TakeAll(s, setup, run);
            && after.batches == s.batches && |after.items| == |s.items|
            && (forall i :: 0 <= i < |s.items| ==> SameMoney(s.items[i], after.items[i]))
            && BatchSum(after.items, batchId) == BatchSum(s.items, batchId)
            && CompletedSum(after.items) == CompletedSum(s.items)
    decreases run
  {
    if run != [] {
      var next := Take(s, setup, run[0]);
      StepKeepsPayouts(s, setup, run[0]);
      SameSums(s.items, next.items, batchId);
      PayoutsAreConserved(next, setup, run[1..], batchId);
    }
  }

  /** Cancelling frees exactly the approved commissions of the item that were not eligible
      before, and leaves every other commission alone. */
  lemma CancelFreesItsCommissions(s: Ledger, id: nat)
    ensures var (after, outcome) := CancelPayout(s, id);
            && (outcome == Done ==>
                  && EligibleAmount(after.commissions) == EligibleAmount(s.commissions) + HeldBack(s.commissions, id)
                  && forall i :: 0 <= i < |after.commissions| ==> after.commissions[i].payoutItemId != Some(id))
            && (outcome != Done ==> after == s)
            && |after.commissions| == |s.commissions|
            && forall i :: 0 <= i < |s.commissions| && s.commissions[i].payoutItemId != Some(id) ==>
                 after.commissions[i] == s.commissions[i]
  {
    UnlinkFrees(s.commissions, id);
  }

  lemma {:induction false} UnlinkFrees(list: seq<Commission>, id: nat)
    ensures EligibleAmount(Unlink(list, id)) == EligibleAmount(list) + HeldBack(list, id)
  {
    if list != [] {
      var k := |list| - 1;
      UnlinkFrees(list[..k], id);
      assert Unlink(list, id)[..k] == Unlink(list[..k], id);
    }
  }

  /** No step ever links a commission to a payout item. */
  lemma {:induction false} LinksOnlyGo(s: Ledger, setup: Setup, run: seq<Step>)
    ensures var after := TakeAll(s, setup, run).commissions;
            && |after| == |s.commissions|
            && forall i :: 0 <= i < |after| && after[i].payoutItemId.Some? ==>
                 after[i].payoutItemId == s.commissions[i].payoutItemId
    decreases run
  {
    if run != [] {
      StepUnlinks(s, setup, run[0]);
      LinksOnlyGo(Take(s, setup, run[0]), setup, run[1..]);
    }
  }

  lemma StepUnlinks(s: Ledger, setup: Setup, step: Step)
    ensures var after := Take(s, setup, step).commissions;
            && |after| == |s.commissions|
            && forall i :: 0 <= i < |after| && after[i].payoutItemId.Some? ==>
                 after[i].payoutItemId == s.commissions[i].payoutItemId
  {
  }

  /** After a cancellation no commission is ever counted to the item again. */
  lemma CancelledStaysUnlinked(s: Ledger, setup: Setup, id: nat, run: seq<Step>)
    requires CancelPayout(s, id).1 == Done
    ensures forall i :: 0 <= i < |TakeAll(CancelPayout(s, id).0, setup, run).commissions| ==>
              TakeAll(CancelPayout(s, id).0, setup, run).commissions[i].payoutItemId != Some(id)
  {
    CancelFreesItsCommissions(s, id);
    LinksOnlyGo(CancelPayout(s, id).0, setup, run);
  }

  // ----- bulk forms

  /** Ids that fail are skipped; the others are reported in order. */
  function BulkConversions(s: Ledger, ids: seq<string>, status: Status): (Ledger, seq<string>) {
    if ids == [] then (s, [])
    else
      var k := |ids| - 1;
      var (before, updated) := BulkConversions(s, ids[..k], status);
      var (after, outcome) := UpdateConversion(before, ids[k], status);
      (after, if outcome == Done then updated + [ids[k]] else updated)
  }

  function BulkCommissions(s: Ledger, ids: seq<string>, status: Status): (Ledger, seq<string>) {
    if ids == [] then (s, [])
    else
      var k := |ids| - 1;
      var (before, updated) := BulkCommissions(s, ids[..k], status);
      var (after, outcome) := UpdateCommission(before, ids[k], status);
      (after, if outcome == Done then updated + [ids[k]] else updated)
  }

  lemma {:induction false} TakeAllAppend(s: Ledger, setup: Setup, run: seq<Step>, step: Step)
    ensures TakeAll(s, setup, run + [step]) == Take(TakeAll(s, setup, run), setup, step)
    decreases run
  {
    if run == [] {
      assert TakeAll(Take(s, setup, step), setup, []) == Take(s, setup, step);
      assert (run + [step])[1..] == [];
    } else {
      TakeAllAppend(Take(s, setup, run[0]), setup, run[1..], step);
      assert (run + [step])[1..] == run[1..] + [step];
    }
  }

  function ConversionSteps(ids: seq<string>, status: Status): seq<Step> {
    if ids == [] then [] else ConversionSteps(ids[..|ids| - 1], status) + [DoUpdateConversion(ids[|ids| - 1], status)]
  }

  function CommissionSteps(ids: seq<string>, status: Status): seq<Step> {
    if ids == [] then [] else CommissionSteps(ids[..|ids| - 1], status) + [DoUpdateCommission(ids[|ids| - 1], status)]
  }

  /** A bulk update is the run of its single updates, so it keeps whatever every run keeps. */
  lemma {:induction false} BulkConversionsIsARun(s: Ledger, setup: Setup, ids: seq<string>, status: Status)
    ensures BulkConversions(s, ids, status).0 == TakeAll(s, setup, ConversionSteps(ids, status))
    decreases |ids|
  {
    if ids != [] {
      var k := |ids| - 1;
      BulkConversionsIsARun(s, setup, ids[..k], status);
      TakeAllAppend(s, setup, ConversionSteps(ids[..k], status), DoUpdateConversion(ids[k], status));
    }
  }

  lemma {:induction false} BulkCommissionsIsARun(s: Ledger, setup: Setup, ids: seq<string>, status: Status)
    ensures BulkCommissions(s, ids, status).0 == TakeAll(s, setup, CommissionSteps(ids, status))
    decreases |ids|
  {
    if ids != [] {
      var k := |ids| - 1;
      BulkCommissionsIsARun(s, setup, ids[..k], status);
      TakeAllAppend(s, setup, CommissionSteps(ids[..k], status), DoUpdateCommission(ids[k], status));
    }
  }
}
