/**
 `recordTelemetry` of src/modules/api-activity/api-telemetry.interceptor.ts (lines
 124-289): every call is logged, failures are counted in one error group per fingerprint,
 and calls refused by rate limiting are counted in the quota of their caller.

 An absent or empty text is "".  The digest of a fingerprint is a parameter.
 */
module ApiTelemetry {
  import opened Decimal
  import opened Text
  import opened Wrappers
  import RouteNormalizer

  // ----- values

  datatype Call = Call(
    requestId: string, rawUrl: string, method_: string, organizationId: string, ipAddress: string, hasApiKey: bool,
    errorStatus: nat, errorStatusCode: nat, responseStatus: nat, thrownCode: string, thrownErrorCode: string,
    thrownMessage: string, startedAt: int, completedAt: int)

  datatype Result =
    AuthenticationFailed | AuthorizationFailed | RateLimited | Success | Redirect | ClientError | ServerError

  datatype ApiRequest = ApiRequest(
    requestId: string, method_: string, normalizedRoute: string, statusCode: nat, result: Result, service: string,
    organizationId: string, ipAddress: string, hasApiKey: bool, errorCode: string, errorMessage: string,
    errorFingerprint: string, startedAt: int, completedAt: int)

  datatype Group = Group(
    errorFingerprint: string, errorCode: string, httpStatus: nat, service: string, normalizedRoute: string,
    message: string, affectedOrganizations: nat, affectedClients: nat, firstSeenAt: int,
    occurrenceCount: nat, lastSeenAt: int, sampleRequestId: string)

  datatype QuotaStatus = Normal | Exceeded

  datatype Quota = Quota(entityId: string, rateLimitedCount: nat, lastViolationAt: int, status: QuotaStatus)

  // ----- the log entry of a call

  function OrElse(s: string, fallback: string): string {
    if s != "" then s else fallback
  }

  function Status(call: Call): (status: nat)
    ensures status != 0
  {
    if call.errorStatus != 0 then call.errorStatus
    else if call.errorStatusCode != 0 then call.errorStatusCode
    else if call.responseStatus != 0 then call.responseStatus
    else 200
  }

  function Classify(status: nat): Result {
    if status == 401 then AuthenticationFailed
    else if status == 403 then AuthorizationFailed
    else if status == 429 then RateLimited
    else if 200 <= status < 300 then Success
    else if 300 <= status < 400 then Redirect
    else if 400 <= status < 500 then ClientError
    else ServerError
  }

  predicate Includes(text: string, part: string) {
    part <= text || (text != "" && Includes(text[1..], part))
  }

  function Service(rawUrl: string): string {
    if Includes(rawUrl, "/conversions") then "Conversion Service"
    else if Includes(rawUrl, "/affiliates") || Includes(rawUrl, "/programs") then "Affiliate Service"
    else if Includes(rawUrl, "/payouts") || Includes(rawUrl, "/billing") then "Payout Service"
    else if Includes(rawUrl, "/auth") then "Auth Gateway"
    else if Includes(rawUrl, "/integrations") || Includes(rawUrl, "/webhooks") then "Integration Service"
    else if Includes(rawUrl, "/admin/security") then "Security Operations Engine"
    else "PartnerIQ Core API"
  }

  function Content(service: string, method_: string, route: string, code: string): string {
    service + ":" + method_ + ":" + route + ":" + code
  }

  function ErrorCode(call: Call): string {
    OrElse(OrElse(call.thrownCode, call.thrownErrorCode),
           if Status(call) >= 400 then "HTTP_" + Show(Status(call)) else "")
  }

  function Entry(digest: string -> string, call: Call): ApiRequest {
    var route := RouteNormalizer.NormalizeRoutePath(call.rawUrl);
    var service := Service(call.rawUrl);
    var code := ErrorCode(call);
    var fingerprint := if code != "" then digest(Content(service, call.method_, route, code)) else "";
    ApiRequest(call.requestId, call.method_, route, Status(call), Classify(Status(call)), service,
               call.organizationId, call.ipAddress, call.hasApiKey, code, call.thrownMessage,
               fingerprint, call.startedAt, call.completedAt)
  }

  // ----- one step

  predicate Counted(r: ApiRequest) {
    r.errorFingerprint != "" && r.errorCode != "" && r.statusCode >= 400
  }

  function NewGroup(r: ApiRequest): Group {
    Group(r.errorFingerprint, r.errorCode, r.statusCode, r.service, r.normalizedRoute,
          OrElse(r.errorMessage, "HTTP " + Show(r.statusCode) + " encountered on " + r.normalizedRoute),
          if r.organizationId != "" then 1 else 0, if r.hasApiKey then 1 else 0, r.startedAt,
          1, r.completedAt, r.requestId)
  }

  function SeenAgain(g: Group, r: ApiRequest): Group {
    g.(occurrenceCount := g.occurrenceCount + 1, lastSeenAt := r.completedAt, sampleRequestId := r.requestId)
  }

  function UpdateGroups(groups: seq<Group>, r: ApiRequest): seq<Group> {
    if !Counted(r) then groups
    else if groups == [] then [NewGroup(r)]
    else if groups[0].errorFingerprint == r.errorFingerprint then [SeenAgain(groups[0], r)] + groups[1..]
    else [groups[0]] + UpdateGroups(groups[1..], r)
  }

  function EntityId(r: ApiRequest): string {
    OrElse(r.organizationId, r.ipAddress)
  }

  function Violated(q: Quota, r: ApiRequest): Quota {
    q.(rateLimitedCount := q.rateLimitedCount + 1, lastViolationAt := r.completedAt, status := Exceeded)
  }

  function UpdateQuotas(quotas: seq<Quota>, r: ApiRequest): seq<Quota> {
    if r.statusCode != 429 || quotas == [] then quotas
    else if quotas[0].entityId == EntityId(r) then [Violated(quotas[0], r)] + quotas[1..]
    else [quotas[0]] + UpdateQuotas(quotas[1..], r)
  }

  // ----- whole runs

  function Groups(before: seq<Group>, log: seq<ApiRequest>): seq<Group> {
    if log == [] then before else UpdateGroups(Groups(before, log[..|log| - 1]), log[|log| - 1])
  }

  function Quotas(before: seq<Quota>, log: seq<ApiRequest>): seq<Quota> {
    if log == [] then before else UpdateQuotas(Quotas(before, log[..|log| - 1]), log[|log| - 1])
  }

  // ----- what the index should be: the log grouped by fingerprint

  /** The failures in the log with one fingerprint, oldest first. */
  function Failures(log: seq<ApiRequest>, fingerprint: string): seq<ApiRequest> {
    if log == [] then []
    else
      var last := log[|log| - 1];
      Failures(log[..|log| - 1], fingerprint)
      + if Counted(last) && last.errorFingerprint == fingerprint then [last] else []
  }

  /** The first failure gives the group its description; how many there are is its count and
      the latest is its sample. */
  function Summary(before: Option<Group>, failures: seq<ApiRequest>): Option<Group> {
    if failures == [] then before
    else
      var first, last := failures[0], failures[|failures| - 1];
      var start := if before.Some? then before.value else NewGroup(first).(occurrenceCount := 0);
      Some(start.(occurrenceCount := start.occurrenceCount + |failures|,
                  lastSeenAt := last.completedAt, sampleRequestId := last.requestId))
  }

  function Lookup(groups: seq<Group>, fingerprint: string): Option<Group> {
    if groups == [] then None
    else if groups[0].errorFingerprint == fingerprint then Some(groups[0])
    else Lookup(groups[1..], fingerprint)
  }

  predicate OneEach(groups: seq<Group>) {
    forall i, j :: 0 <= i < j < |groups| ==> groups[i].errorFingerprint != groups[j].errorFingerprint
  }

  function Seen(known: Option<Group>, r: ApiRequest): Group {
    match known
    case None => NewGroup(r)
    case Some(g) => SeenAgain(g, r)
  }

  lemma {:induction false} LookupAfterUpdate(groups: seq<Group>, r: ApiRequest, fingerprint: string)
    ensures Lookup(UpdateGroups(groups, r), fingerprint)
         == if Counted(r) && r.errorFingerprint == fingerprint then Some(Seen(Lookup(groups, fingerprint), r))
            else Lookup(groups, fingerprint)
  {
    if Counted(r) && groups != [] {
      LookupAfterUpdate(groups[1..], r, fingerprint);
    }
  }

  lemma SummaryStep(before: Option<Group>, failures: seq<ApiRequest>, r: ApiRequest)
    ensures Summary(before, failures + [r]) == Some(Seen(Summary(before, failures), r))
  {
    if failures != [] {
      assert (failures + [r])[0] == failures[0];
    }
  }

  /** The index kept up to date call by call is the log grouped by fingerprint. */
  lemma {:induction false} IndexIsSummary(before: seq<Group>, log: seq<ApiRequest>, fingerprint: string)
    ensures Lookup(Groups(before, log), fingerprint) == Summary(Lookup(before, fingerprint), Failures(log, fingerprint))
  {
    if log != [] {
      var sofar, last := log[..|log| - 1], log[|log| - 1];
      IndexIsSummary(before, sofar, fingerprint);
      LookupAfterUpdate(Groups(before, sofar), last, fingerprint);
      if Counted(last) && last.errorFingerprint == fingerprint {
        SummaryStep(Lookup(before, fingerprint), Failures(sofar, fingerprint), last);
      } else {
        assert Failures(log, fingerprint) == Failures(sofar, fingerprint);
      }
    }
  }

  function Fingerprints(groups: seq<Group>): (s: seq<string>)
    ensures |s| == |groups|
    ensures forall i :: 0 <= i < |s| ==> s[i] == groups[i].errorFingerprint
  {
    seq(|groups|, i requires 0 <= i < |groups| => groups[i].errorFingerprint)
  }

  lemma {:induction false} FingerprintsAfterUpdate(groups: seq<Group>, r: ApiRequest)
    ensures Fingerprints(UpdateGroups(groups, r))
         == Fingerprints(groups)
            + if Counted(r) && r.errorFingerprint !in Fingerprints(groups) then [r.errorFingerprint] else []
  {
    if Counted(r) && groups != [] && groups[0].errorFingerprint != r.errorFingerprint {
      FingerprintsAfterUpdate(groups[1..], r);
      assert Fingerprints(groups) == [groups[0].errorFingerprint] + Fingerprints(groups[1..]);
    }
  }

  lemma OneEachIsKept(groups: seq<Group>, r: ApiRequest)
    requires OneEach(groups)
    ensures OneEach(UpdateGroups(groups, r))
  {
    FingerprintsAfterUpdate(groups, r);
    var after := Fingerprints(UpdateGroups(groups, r));
    assert forall i, j :: 0 <= i < j < |groups| ==> Fingerprints(groups)[i] != Fingerprints(groups)[j];
    assert forall i, j :: 0 <= i < j < |after| ==> after[i] != after[j];
  }

  /** In every run there is at most one group for a fingerprint. */
  lemma {:induction false} OneGroupEach(before: seq<Group>, log: seq<ApiRequest>)
    requires OneEach(before)
    ensures OneEach(Groups(before, log))
  {
    if log != [] {
      OneGroupEach(before, log[..|log| - 1]);
      OneEachIsKept(Groups(before, log[..|log| - 1]), log[|log| - 1]);
    }
  }

  function TotalCount(groups: seq<Group>): nat {
    if groups == [] then 0 else groups[0].occurrenceCount + TotalCount(groups[1..])
  }

  function FailureCount(log: seq<ApiRequest>): nat {
    if log == [] then 0 else FailureCount(log[..|log| - 1]) + if Counted(log[|log| - 1]) then 1 else 0
  }

  lemma {:induction false} TotalAfterUpdate(groups: seq<Group>, r: ApiRequest)
    ensures TotalCount(UpdateGroups(groups, r)) == TotalCount(groups) + if Counted(r) then 1 else 0
  {
    if Counted(r) && groups != [] {
      TotalAfterUpdate(groups[1..], r);
    }
  }

  /** No failure is lost or counted twice. */
  lemma {:induction false} EveryFailureIsCounted(before: seq<Group>, log: seq<ApiRequest>)
    ensures TotalCount(Groups(before, log)) == TotalCount(before) + FailureCount(log)
  {
    if log != [] {
      EveryFailureIsCounted(before, log[..|log| - 1]);
      TotalAfterUpdate(Groups(before, log[..|log| - 1]), log[|log| - 1]);
    }
  }

  /** With a digest that is never empty the calls counted are those with status 400 or more,
      whatever code was thrown. */
  lemma CountedExact(digest: string -> string, call: Call)
    requires forall s :: digest(s) != ""
    ensures Counted(Entry(digest, call)) <==> Status(call) >= 400
    ensures Entry(digest, call).errorFingerprint != ""
       <==> Status(call) >= 400 || call.thrownCode != "" || call.thrownErrorCode != ""
  {
    assert "HTTP_" + Show(Status(call)) != "";
  }

  // ----- what a fingerprint tells apart

  lemma PlainFirst(a: string, x: string, b: string, y: string)
    requires ':' !in a && ':' !in b
    ensures a + ":" + x == b + ":" + y <==> a == b && x == y
  {
    JoinExact(a, x, b, y);
    NoColonNoStraddle(a, x, b, y);
    NoColonNoStraddle(b, y, a, x);
  }

  /** Services and methods are told apart; a route and a code only together. */
  lemma ContentExact(service: string, method_: string, route: string, code: string,
                     service': string, method': string, route': string, code': string)
    requires ':' !in service && ':' !in method_ && ':' !in service' && ':' !in method'
    ensures Content(service, method_, route, code) == Content(service', method', route', code')
       <==> service == service' && method_ == method' && route + ":" + code == route' + ":" + code'
  {
    ContentGroups(service, method_, route, code);
    ContentGroups(service', method', route', code');
    PlainFirst(service, method_ + ":" + (route + ":" + code), service', method' + ":" + (route' + ":" + code'));
    PlainFirst(method_, route + ":" + code, method', route' + ":" + code');
  }

  /** As long as codes have no colon a fingerprint tells all four parts apart. */
  lemma ContentWithPlainCodes(service: string, method_: string, route: string, code: string,
                              service': string, method': string, route': string, code': string)
    requires ':' !in service && ':' !in method_ && ':' !in service' && ':' !in method'
    requires ':' !in code && ':' !in code'
    ensures Content(service, method_, route, code) == Content(service', method', route', code')
       <==> service == service' && method_ == method' && route == route' && code == code'
  {
    ContentExact(service, method_, route, code, service', method', route', code');
    JoinExact(route, code, route', code');
    NoColonNoStraddle(route, code, route', code');
    NoColonNoStraddle(route', code', route, code);
  }

  lemma {:induction false} NothingIncluded(text: string, part: string)
    requires |text| < |part|
    ensures !Includes(text, part)
  {
    if text != "" {
      NothingIncluded(text[1..], part);
    }
  }

  lemma ShortUrl(rawUrl: string)
    requires |rawUrl| < 5
    ensures Service(rawUrl) == "PartnerIQ Core API"
  {
    NothingIncluded(rawUrl, "/conversions");
    NothingIncluded(rawUrl, "/affiliates");
    NothingIncluded(rawUrl, "/programs");
    NothingIncluded(rawUrl, "/payouts");
    NothingIncluded(rawUrl, "/billing");
    NothingIncluded(rawUrl, "/auth");
    NothingIncluded(rawUrl, "/integrations");
    NothingIncluded(rawUrl, "/webhooks");
    NothingIncluded(rawUrl, "/admin/security");
  }

  function FailedCall(rawUrl: string, thrownCode: string): Call {
    Call("r", rawUrl, "GET", "", "", false, 500, 0, 0, thrownCode, "", "", 0, 0)
  }

  lemma FailedEntry(digest: string -> string, rawUrl: string, code: string)
    requires ShortPath(rawUrl) && code != ""
    ensures var r := Entry(digest, FailedCall(rawUrl, code));
            && r.normalizedRoute == rawUrl && r.errorCode == code
            && r.errorFingerprint == digest(Content("PartnerIQ Core API", "GET", rawUrl, code))
  {
    RouteNormalizer.ShortPathStays(rawUrl);
    ShortUrl(rawUrl);
  }

  predicate ShortPath(s: string) {
    0 < |s| < 5 && forall i :: 0 <= i < |s| ==> s[i] != '?' && !IsDigit(s[i])
  }

  lemma FailedCallsCollide(digest: string -> string, url: string, code: string, url': string, code': string)
    requires ShortPath(url) && ShortPath(url') && code != "" && code' != "" && url != url' && code != code'
    requires url + ":" + code == url' + ":" + code'
    ensures var r, r' := Entry(digest, FailedCall(url, code)), Entry(digest, FailedCall(url', code'));
            && r.normalizedRoute != r'.normalizedRoute && r.errorCode != r'.errorCode
            && r.errorFingerprint == r'.errorFingerprint
  {
    FailedEntry(digest, url, code);
    FailedEntry(digest, url', code');
    SameJoin(url, code, url', code');
  }

  /** With a colon in a code they need not be: for every digest two failures on different
      routes with different codes share a fingerprint, and so a group. */
  lemma FingerprintsCollide(digest: string -> string)
    ensures var r, r' := Entry(digest, FailedCall("/a", "b:C")), Entry(digest, FailedCall("/a:b", "C"));
            && r.normalizedRoute != r'.normalizedRoute && r.errorCode != r'.errorCode
            && r.errorFingerprint == r'.errorFingerprint
  {
    assert "/a" + ":" + "b:C" == "/a:b" + ":" + "C";
    FailedCallsCollide(digest, "/a", "b:C", "/a:b", "C");
  }

  lemma SameJoin(route: string, code: string, route': string, code': string)
    requires route + ":" + code == route' + ":" + code'
    ensures Content("PartnerIQ Core API", "GET", route, code) == Content("PartnerIQ Core API", "GET", route', code')
  {
    ContentGroups("PartnerIQ Core API", "GET", route, code);
    ContentGroups("PartnerIQ Core API", "GET", route', code');
  }

  predicate EndsWith(s: string, end: string) {
    |end| <= |s| && s[|s| - |end|..] == end
  }

  /** Whether two codes can make different pairs of route and code agree. */
  ghost predicate CanCollide(code: string, code': string) {
    exists route, route' ::
      (route, code) != (route', code') && route + ":" + code == route' + ":" + code'
  }

  lemma StraddleEnds(route: string, code: string, route': string, code': string)
    requires Straddles(route, code, route', code')
    ensures EndsWith(code', ":" + code)
  {
  }

  lemma EndingCollides(code: string, code': string)
    requires EndsWith(code, ":" + code')
    ensures CanCollide(code, code')
  {
    var middle := code[..|code| - |code'| - 1];
    var route' := "/" + ":" + middle;
    assert code == middle + (":" + code');
    assert "/" + ":" + code == route' + ":" + code';
  }

  lemma CanCollideIsSymmetric(code: string, code': string)
    requires CanCollide(code, code')
    ensures CanCollide(code', code)
  {
    var route, route' :|
      (route, code) != (route', code') && route + ":" + code == route' + ":" + code';
    assert route' + ":" + code' == route + ":" + code;
  }

  /** They can exactly when one of them ends with a colon and the other. */
  lemma CodesCollideExact(code: string, code': string)
    ensures CanCollide(code, code') <==> EndsWith(code, ":" + code') || EndsWith(code', ":" + code)
  {
    if CanCollide(code, code') {
      var route, route' :|
        (route, code) != (route', code') && route + ":" + code == route' + ":" + code';
      JoinExact(route, code, route', code');
      if Straddles(route, code, route', code') {
        StraddleEnds(route, code, route', code');
      } else {
        StraddleEnds(route', code', route, code);
      }
    }
    if EndsWith(code, ":" + code') {
      EndingCollides(code, code');
    } else if EndsWith(code', ":" + code) {
      EndingCollides(code', code);
      CanCollideIsSymmetric(code', code);
    }
  }

  lemma ContentGroups(service: string, method_: string, route: string, code: string)
    ensures Content(service, method_, route, code) == service + ":" + (method_ + ":" + (route + ":" + code))
  {
  }

  // ----- quotas

  function Refusals(log: seq<ApiRequest>, entityId: string): seq<ApiRequest> {
    if log == [] then []
    else
      var last := log[|log| - 1];
      Refusals(log[..|log| - 1], entityId)
      + if last.statusCode == 429 && EntityId(last) == entityId then [last] else []
  }

  function QuotaSummary(q: Quota, refusals: seq<ApiRequest>): Quota {
    if refusals == [] then q
    else Quota(q.entityId, q.rateLimitedCount + |refusals|, refusals[|refusals| - 1].completedAt, Exceeded)
  }

  predicate FirstOfItsEntity(quotas: seq<Quota>, i: nat)
    requires i < |quotas|
  {
    forall j :: 0 <= j < i ==> quotas[j].entityId != quotas[i].entityId
  }

  lemma {:induction false} QuotaAfterUpdate(quotas: seq<Quota>, r: ApiRequest, i: nat)
    requires i < |quotas|
    ensures |UpdateQuotas(quotas, r)| == |quotas|
    ensures UpdateQuotas(quotas, r)[i]
         == if r.statusCode == 429 && EntityId(r) == quotas[i].entityId && FirstOfItsEntity(quotas, i)
            then Violated(quotas[i], r) else quotas[i]
  {
    if r.statusCode == 429 {
      if quotas[0].entityId == EntityId(r) {
        assert i > 0 && quotas[i].entityId == EntityId(r) ==> !FirstOfItsEntity(quotas, i) by {
          assert quotas[0].entityId == EntityId(r);
        }
      } else if i == 0 {
        QuotaLength(quotas, r);
      } else {
        QuotaAfterUpdate(quotas[1..], r, i - 1);
        FirstInTail(quotas, i);
      }
    }
  }

  lemma {:induction false} QuotaLength(quotas: seq<Quota>, r: ApiRequest)
    ensures |UpdateQuotas(quotas, r)| == |quotas|
  {
    if quotas != [] {
      QuotaLength(quotas[1..], r);
    }
  }

  lemma FirstInTail(quotas: seq<Quota>, i: nat)
    requires 0 < i < |quotas|
    ensures FirstOfItsEntity(quotas, i)
       <==> quotas[0].entityId != quotas[i].entityId && FirstOfItsEntity(quotas[1..], i - 1)
  {
    if quotas[0].entityId != quotas[i].entityId && FirstOfItsEntity(quotas[1..], i - 1) {
      forall j | 0 <= j < i
        ensures quotas[j].entityId != quotas[i].entityId
      {
        if j > 0 {
          assert quotas[1..][j - 1] == quotas[j];
        }
      }
    }
    if FirstOfItsEntity(quotas, i) {
      forall j | 0 <= j < i - 1
        ensures quotas[1..][j].entityId != quotas[1..][i - 1].entityId
      {
        assert quotas[1..][j] == quotas[j + 1];
      }
    }
  }

  /** In every run the first quota of an entity counts the entity's refused calls, and any
      other quota stays as it was. */
  lemma {:induction false} QuotaIsSummary(before: seq<Quota>, log: seq<ApiRequest>, i: nat)
    requires i < |before|
    ensures |Quotas(before, log)| == |before|
    ensures Quotas(before, log)[i]
         == if FirstOfItsEntity(before, i) then QuotaSummary(before[i], Refusals(log, before[i].entityId))
            else before[i]
  {
    if log != [] {
      var sofar, last := log[..|log| - 1], log[|log| - 1];
      var now := Quotas(before, sofar);
      forall j | 0 <= j <= i
        ensures |now| == |before| && now[j].entityId == before[j].entityId
        ensures j == i ==> now[j] == if FirstOfItsEntity(before, j)
                                     then QuotaSummary(before[j], Refusals(sofar, before[j].entityId)) else before[j]
      {
        QuotaIsSummary(before, sofar, j);
      }
      QuotaAfterUpdate(now, last, i);
      assert FirstOfItsEntity(now, i) <==> FirstOfItsEntity(before, i);
    }
  }
}
