/**
 What one call leaves in the log, in the error groups and in the quotas (`recordTelemetry` of
 src/modules/api-activity/api-telemetry.interceptor.ts, lines 143-284), told from the fields
 of the call.
 */
module TelemetryEntry {
  import opened ApiTelemetry
  import opened Wrappers
  import Decimal
  import RouteNormalizer

  // ----- the log entry

  /** A thrown status comes before a thrown status code, that before the status of the
      response, and that before 200. */
  ghost predicate HasStatus(call: Call, status: nat) {
    && (call.errorStatus != 0 ==> status == call.errorStatus)
    && (call.errorStatus == 0 && call.errorStatusCode != 0 ==> status == call.errorStatusCode)
    && (call.errorStatus == call.errorStatusCode == 0 && call.responseStatus != 0 ==> status == call.responseStatus)
    && (call.errorStatus == call.errorStatusCode == call.responseStatus == 0 ==> status == 200)
  }

  /** When each result is given. */
  ghost predicate HasResult(status: nat, result: Result) {
    && (result == AuthenticationFailed <==> status == 401)
    && (result == AuthorizationFailed <==> status == 403)
    && (result == RateLimited <==> status == 429)
    && (result == Success <==> 200 <= status < 300)
    && (result == Redirect <==> 300 <= status < 400)
    && (result == ClientError <==> 400 <= status < 500 && status !in {401, 403, 429})
    && (result == ServerError <==> !(200 <= status < 500))
  }

  /** The part occurs in the text. */
  ghost predicate Occurs(part: string, text: string) {
    exists before, after :: text == before + part + after
  }

  lemma {:induction false} IncludesExact(text: string, part: string)
    ensures Includes(text, part) <==> Occurs(part, text)
  {
    if part <= text {
      assert text == "" + part + text[|part|..];
    } else if text != "" {
      IncludesExact(text[1..], part);
      if Occurs(part, text[1..]) {
        var before, after :| text[1..] == before + part + after;
        assert text == [text[0]] + text[1..] == ([text[0]] + before) + part + after;
      }
      if Occurs(part, text) {
        var before, after :| text == before + part + after;
        assert before != "" by {
          assert "" + part + after == part + after;
        }
        assert text[1..] == before[1..] + part + after;
      }
    }
  }

  /** The first of these parts of the URL names the service. */
  ghost predicate HasService(rawUrl: string, service: string) {
    if Occurs("/conversions", rawUrl) then service == "Conversion Service"
    else if Occurs("/affiliates", rawUrl) || Occurs("/programs", rawUrl) then service == "Affiliate Service"
    else if Occurs("/payouts", rawUrl) || Occurs("/billing", rawUrl) then service == "Payout Service"
    else if Occurs("/auth", rawUrl) then service == "Auth Gateway"
    else if Occurs("/integrations", rawUrl) || Occurs("/webhooks", rawUrl) then service == "Integration Service"
    else if Occurs("/admin/security", rawUrl) then service == "Security Operations Engine"
    else service == "PartnerIQ Core API"
  }

  lemma ServiceExact(rawUrl: string)
    ensures HasService(rawUrl, Service(rawUrl))
  {
    IncludesExact(rawUrl, "/conversions");
    IncludesExact(rawUrl, "/affiliates");
    IncludesExact(rawUrl, "/programs");
    IncludesExact(rawUrl, "/payouts");
    IncludesExact(rawUrl, "/billing");
    IncludesExact(rawUrl, "/auth");
    IncludesExact(rawUrl, "/integrations");
    IncludesExact(rawUrl, "/webhooks");
    IncludesExact(rawUrl, "/admin/security");
  }

  /** A thrown code, a thrown error code, or the status of a failure. */
  ghost predicate HasCode(call: Call, status: nat, code: string) {
    && (call.thrownCode != "" ==> code == call.thrownCode)
    && (call.thrownCode == "" && call.thrownErrorCode != "" ==> code == call.thrownErrorCode)
    && (call.thrownCode == call.thrownErrorCode == "" ==>
          if status >= 400 then code == "HTTP_" + Decimal.Show(status) else code == "")
  }

  /** The entry of a call: every field by what the call carries. */
  ghost predicate Logs(digest: string -> string, call: Call, r: ApiRequest) {
    && HasStatus(call, r.statusCode)
    && HasResult(r.statusCode, r.result)
    && HasService(call.rawUrl, r.service)
    && HasCode(call, r.statusCode, r.errorCode)
    && r.normalizedRoute == RouteNormalizer.NormalizeRoutePath(call.rawUrl)
    && r.errorFingerprint == (if r.errorCode == "" then ""
                              else digest(r.service + ":" + r.method_ + ":" + r.normalizedRoute + ":" + r.errorCode))
    && r.errorMessage == call.thrownMessage && r.requestId == call.requestId && r.method_ == call.method_
    && r.organizationId == call.organizationId && r.ipAddress == call.ipAddress && r.hasApiKey == call.hasApiKey
    && r.startedAt == call.startedAt && r.completedAt == call.completedAt
  }

  lemma EntryLogs(digest: string -> string, call: Call)
    ensures Logs(digest, call, Entry(digest, call))
  {
    ServiceExact(call.rawUrl);
  }

  // ----- groups and quotas

  /** A call raises the total of the group counts by one exactly if its status is 400 or more,
      and the violations of the first quota of its organization, or else of its address, if
      it is 429. */
  ghost predicate Counts(call: Call, status: nat, groups: seq<Group>, groups': seq<Group>, quotas: seq<Quota>,
                         quotas': seq<Quota>) {
    && TotalCount(groups') == TotalCount(groups) + (if status >= 400 then 1 else 0)
    && |quotas'| == |quotas|
    && forall i :: 0 <= i < |quotas| ==>
         quotas'[i].rateLimitedCount
         == quotas[i].rateLimitedCount
            + if status == 429 && FirstOfItsEntity(quotas, i)
                 && quotas[i].entityId == (if call.organizationId == "" then call.ipAddress else call.organizationId)
              then 1 else 0
  }

  lemma CallCounts(digest: string -> string, call: Call, groups: seq<Group>, quotas: seq<Quota>)
    requires forall s :: digest(s) != ""
    ensures var r := Entry(digest, call);
            Counts(call, r.statusCode, groups, UpdateGroups(groups, r), quotas, UpdateQuotas(quotas, r))
  {
    var r := Entry(digest, call);
    CountedExact(digest, call);
    TotalAfterUpdate(groups, r);
    QuotaLength(quotas, r);
    forall i | 0 <= i < |quotas|
      ensures UpdateQuotas(quotas, r)[i].rateLimitedCount
           == quotas[i].rateLimitedCount
              + if r.statusCode == 429 && FirstOfItsEntity(quotas, i)
                   && quotas[i].entityId == (if call.organizationId == "" then call.ipAddress else call.organizationId)
                then 1 else 0
    {
      QuotaAfterUpdate(quotas, r, i);
    }
  }

  /** The first failure of its kind opens a group that describes it. */
  lemma FirstFailure(groups: seq<Group>, r: ApiRequest)
    requires Counted(r) && Lookup(groups, r.errorFingerprint) == None
    ensures var g := Lookup(UpdateGroups(groups, r), r.errorFingerprint);
            && g.Some? && g.value.errorFingerprint == r.errorFingerprint && g.value.errorCode == r.errorCode
            && g.value.httpStatus == r.statusCode && g.value.service == r.service
            && g.value.normalizedRoute == r.normalizedRoute
            && (r.errorMessage != "" ==> g.value.message == r.errorMessage)
            && (r.errorMessage == "" ==>
                  Occurs(Decimal.Show(r.statusCode), g.value.message) && Occurs(r.normalizedRoute, g.value.message))
            && g.value.affectedOrganizations == (if r.organizationId == "" then 0 else 1)
            && g.value.affectedClients == (if r.hasApiKey then 1 else 0)
            && g.value.firstSeenAt == r.startedAt && g.value.lastSeenAt == r.completedAt
            && g.value.occurrenceCount == 1 && g.value.sampleRequestId == r.requestId
  {
    LookupAfterUpdate(groups, r, r.errorFingerprint);
    var status, route := Decimal.Show(r.statusCode), r.normalizedRoute;
    var message := "HTTP " + status + " encountered on " + route;
    assert message == "HTTP " + status + (" encountered on " + route);
    assert message == ("HTTP " + status + " encountered on ") + route + "";
  }
}
