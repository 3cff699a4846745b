/**
 The state `recordTelemetry` updates in place (src/modules/api-activity/
 api-telemetry.interceptor.ts, lines 243-284): the request log, the error groups and the
 rate limit quotas.  The method is proved against the functions of ApiTelemetry.
 */
module ApiTelemetryService {
  import opened ApiTelemetry
  import opened TelemetryEntry

  class ApiErrorGroup {
    const description: Group
    var occurrenceCount: nat
    var lastSeenAt: int
    var sampleRequestId: string

    constructor (group: Group)
      ensures Value() == group
    {
      description := group;
      occurrenceCount, lastSeenAt, sampleRequestId := group.occurrenceCount, group.lastSeenAt, group.sampleRequestId;
    }

    function Value(): Group
      reads this
    {
      description.(occurrenceCount := occurrenceCount, lastSeenAt := lastSeenAt, sampleRequestId := sampleRequestId)
    }
  }

  class ApiRateLimitQuota {
    const entityId: string
    var rateLimitedCount: nat
    var lastViolationAt: int
    var status: QuotaStatus

    constructor (quota: Quota)
      ensures Value() == quota
    {
      entityId := quota.entityId;
      rateLimitedCount, lastViolationAt, status := quota.rateLimitedCount, quota.lastViolationAt, quota.status;
    }

    function Value(): Quota
      reads this
    {
      Quota(entityId, rateLimitedCount, lastViolationAt, status)
    }
  }

  function GroupValues(groups: seq<ApiErrorGroup>): (values: seq<Group>)
    reads groups
    ensures |values| == |groups|
    ensures forall i :: 0 <= i < |groups| ==> values[i] == groups[i].Value()
  {
    seq(|groups|, i requires 0 <= i < |groups| reads groups => groups[i].Value())
  }

  function QuotaValues(quotas: seq<ApiRateLimitQuota>): (values: seq<Quota>)
    reads quotas
    ensures |values| == |quotas|
    ensures forall i :: 0 <= i < |quotas| ==> values[i] == quotas[i].Value()
  {
    seq(|quotas|, i requires 0 <= i < |quotas| reads quotas => quotas[i].Value())
  }

  lemma {:induction false} GroupUpdatedAt(groups: seq<Group>, r: ApiRequest, i: nat)
    requires Counted(r) && i <= |groups|
    requires forall j :: 0 <= j < i ==> groups[j].errorFingerprint != r.errorFingerprint
    requires i < |groups| ==> groups[i].errorFingerprint == r.errorFingerprint
    ensures UpdateGroups(groups, r)
         == if i < |groups| then groups[i := SeenAgain(groups[i], r)] else groups + [NewGroup(r)]
  {
    if i > 0 {
      GroupUpdatedAt(groups[1..], r, i - 1);
    }
  }

  lemma {:induction false} QuotaUpdatedAt(quotas: seq<Quota>, r: ApiRequest, i: nat)
    requires r.statusCode == 429 && i <= |quotas|
    requires forall j :: 0 <= j < i ==> quotas[j].entityId != EntityId(r)
    requires i < |quotas| ==> quotas[i].entityId == EntityId(r)
    ensures UpdateQuotas(quotas, r) == if i < |quotas| then quotas[i := Violated(quotas[i], r)] else quotas
  {
    if i > 0 {
      QuotaUpdatedAt(quotas[1..], r, i - 1);
    }
  }

  class Telemetry {
    const digest: string -> string
    var apiRequests: seq<ApiRequest>
    var apiErrorGroups: seq<ApiErrorGroup>
    var apiRateLimitQuotas: seq<ApiRateLimitQuota>

    constructor (digest: string -> string, groups: seq<ApiErrorGroup>, quotas: seq<ApiRateLimitQuota>)
      requires forall i, j :: 0 <= i < j < |groups| ==> groups[i] != groups[j]
      requires forall i, j :: 0 <= i < j < |quotas| ==> quotas[i] != quotas[j]
      ensures Valid() && this.digest == digest
      ensures InStep(GroupValues(groups), QuotaValues(quotas))
    {
      this.digest := digest;
      apiRequests, apiErrorGroups, apiRateLimitQuotas := [], groups, quotas;
    }

    ghost predicate Valid()
      reads this
    {
      && (forall i, j :: 0 <= i < j < |apiErrorGroups| ==> apiErrorGroups[i] != apiErrorGroups[j])
      && (forall i, j :: 0 <= i < j < |apiRateLimitQuotas| ==> apiRateLimitQuotas[i] != apiRateLimitQuotas[j])
    }

    /** Groups and quotas are those the log leads to from the given ones. */
    ghost predicate InStep(groups: seq<Group>, quotas: seq<Quota>)
      reads this, apiErrorGroups, apiRateLimitQuotas
    {
      && GroupValues(apiErrorGroups) == Groups(groups, apiRequests)
      && QuotaValues(apiRateLimitQuotas) == Quotas(quotas, apiRequests)
    }

    method CountFailure(r: ApiRequest)
      requires Valid() && Counted(r)
      modifies this`apiErrorGroups, apiErrorGroups
      ensures Valid()
      ensures GroupValues(apiErrorGroups) == UpdateGroups(old(GroupValues(apiErrorGroups)), r)
    {
      ghost var before := GroupValues(apiErrorGroups);
      var i := 0;
      while i < |apiErrorGroups| && apiErrorGroups[i].description.errorFingerprint != r.errorFingerprint
        invariant 0 <= i <= |apiErrorGroups|
        invariant forall j :: 0 <= j < i ==> before[j].errorFingerprint != r.errorFingerprint
      {
        i := i + 1;
      }
      GroupUpdatedAt(before, r, i);
      if i < |apiErrorGroups| {
        var existing := apiErrorGroups[i];
        existing.occurrenceCount := existing.occurrenceCount + 1;
        existing.lastSeenAt := r.completedAt;
        existing.sampleRequestId := r.requestId;
        assert GroupValues(apiErrorGroups) == before[i := SeenAgain(before[i], r)];
      } else {
        var newGroup := new ApiErrorGroup(NewGroup(r));
        apiErrorGroups := apiErrorGroups + [newGroup];
        assert GroupValues(apiErrorGroups) == before + [NewGroup(r)];
      }
    }

    method CountRefusal(r: ApiRequest)
      requires Valid() && r.statusCode == 429
      modifies apiRateLimitQuotas
      ensures QuotaValues(apiRateLimitQuotas) == UpdateQuotas(old(QuotaValues(apiRateLimitQuotas)), r)
    {
      ghost var before := QuotaValues(apiRateLimitQuotas);
      var i := 0;
      while i < |apiRateLimitQuotas| && apiRateLimitQuotas[i].entityId != EntityId(r)
        invariant 0 <= i <= |apiRateLimitQuotas|
        invariant forall j :: 0 <= j < i ==> before[j].entityId != EntityId(r)
      {
        i := i + 1;
      }
      QuotaUpdatedAt(before, r, i);
      if i < |apiRateLimitQuotas| {
        var quota := apiRateLimitQuotas[i];
        quota.rateLimitedCount := quota.rateLimitedCount + 1;
        quota.lastViolationAt := r.completedAt;
        quota.status := Exceeded;
        assert QuotaValues(apiRateLimitQuotas) == before[i := Violated(before[i], r)];
      }
    }

    method UpdateErrorGroups(r: ApiRequest)
      requires Valid()
      modifies this`apiErrorGroups, apiErrorGroups
      ensures Valid()
      ensures GroupValues(apiErrorGroups) == UpdateGroups(old(GroupValues(apiErrorGroups)), r)
    {
      if Counted(r) {
        CountFailure(r);
      }
    }

    method UpdateRateLimitQuota(r: ApiRequest)
      requires Valid()
      modifies apiRateLimitQuotas
      ensures QuotaValues(apiRateLimitQuotas) == UpdateQuotas(old(QuotaValues(apiRateLimitQuotas)), r)
    {
      if r.statusCode == 429 {
        CountRefusal(r);
      }
    }

    method Record(r: ApiRequest)
      requires Valid()
      modifies this, apiErrorGroups, apiRateLimitQuotas
      ensures Valid()
      ensures apiRequests == old(apiRequests) + [r]
      ensures GroupValues(apiErrorGroups) == UpdateGroups(old(GroupValues(apiErrorGroups)), r)
      ensures QuotaValues(apiRateLimitQuotas) == UpdateQuotas(old(QuotaValues(apiRateLimitQuotas)), r)
    {
      apiRequests := apiRequests + [r];
      UpdateErrorGroups(r);
      UpdateRateLimitQuota(r);
    }

    method RecordTelemetry(call: Call)
      requires Valid()
      modifies this, apiErrorGroups, apiRateLimitQuotas
      ensures Valid()
      ensures apiRequests == old(apiRequests) + [Entry(digest, call)]
      ensures Logs(digest, call, apiRequests[|old(apiRequests)|])
      ensures (forall s :: digest(s) != "") ==>
                Counts(call, apiRequests[|old(apiRequests)|].statusCode,
                       old(GroupValues(apiErrorGroups)), GroupValues(apiErrorGroups),
                       old(QuotaValues(apiRateLimitQuotas)), QuotaValues(apiRateLimitQuotas))
      ensures GroupValues(apiErrorGroups) == UpdateGroups(old(GroupValues(apiErrorGroups)), Entry(digest, call))
      ensures QuotaValues(apiRateLimitQuotas)
           == UpdateQuotas(old(QuotaValues(apiRateLimitQuotas)), Entry(digest, call))
      ensures forall groups, quotas :: old(InStep(groups, quotas)) ==> InStep(groups, quotas)
    {
      var r := Entry(digest, call);
      EntryLogs(digest, call);
      if forall s :: digest(s) != "" {
        CallCounts(digest, call, GroupValues(apiErrorGroups), QuotaValues(apiRateLimitQuotas));
      }
      ghost var sofar := apiRequests;
      Record(r);
      forall groups, quotas | old(InStep(groups, quotas))
        ensures InStep(groups, quotas)
      {
        RunGrows(groups, quotas, sofar, r);
      }
    }
  }

  lemma RunGrows(groups: seq<Group>, quotas: seq<Quota>, log: seq<ApiRequest>, r: ApiRequest)
    ensures Groups(groups, log + [r]) == UpdateGroups(Groups(groups, log), r)
    ensures Quotas(quotas, log + [r]) == UpdateQuotas(Quotas(quotas, log), r)
  {
    assert (log + [r])[..|log|] == log;
  }
}
