/**
 The attempt limiter of src/common/guards/mfa-rate-limiter.guard.ts.

 Times are in milliseconds.  One call of the guard reads the clock up to four times; a
 request carries the four readings.  Requests for one key do not overlap and the clock
 does not run backwards.
 */
module MfaRateLimiter {
  import opened Text
  import opened Wrappers

  const WINDOW := 15 * 60 * 1000
  const LOCKOUT := 15 * 60 * 1000

  datatype Record = Record(attempts: int, windowStart: int, lockedUntil: Option<int>)

  /** The clock at the window cut-off (line 40), at the lock check (46), where a new window
      starts (63, 90) and where a lock is set (70). */
  datatype Request = Request(arrival: int, lockCheck: int, start: int, done: int) {
    predicate Valid() {
      arrival <= lockCheck <= start <= done
    }
  }

  datatype Outcome = Outcome(record: Option<Record>, admitted: bool)

  /** One call of the guard on the record of its key.  `clears` tells whether saving the
      record erases a lock of an earlier window. */
  function Attempt(record: Option<Record>, request: Request, maxAttempts: int, clears: bool := true): Outcome {
    match record
    case None => Outcome(Some(Record(1, request.start, None)), true)
    case Some(r) =>
      if r.lockedUntil.Some? && request.lockCheck < r.lockedUntil.value then Outcome(record, false)
      else
        var current := if r.windowStart < request.arrival - WINDOW
                       then Record(0, request.start, if clears then None else r.lockedUntil)
                       else r;
        var counted := current.(attempts := current.attempts + 1);
        if counted.attempts >= maxAttempts then
          Outcome(Some(counted.(lockedUntil := Some(request.done + LOCKOUT))), false)
        else
          Outcome(Some(counted), true)
  }

  /** Whether the database answers, fails before the record is read, or fails when it is to
      be saved. */
  datatype Database = Up | ReadFails | SaveFails

  predicate Locked(record: Option<Record>, request: Request) {
    record.Some? && record.value.lockedUntil.Some? && request.lockCheck < record.value.lockedUntil.value
  }

  /** The guard fails open: a failure lets the request through and leaves the record alone,
      unless a lock was seen before. */
  function Visit(record: Option<Record>, request: Request, maxAttempts: int, db: Database): Outcome {
    match db
    case Up => Attempt(record, request, maxAttempts)
    case ReadFails => Outcome(record, true)
    case SaveFails => Outcome(record, !Locked(record, request))
  }

  /** What identifies the caller; "" stands for none given. */
  datatype Caller = Caller(ip: string, forwardedFor: string, challengeId: string, email: string)

  function Identifier(caller: Caller): string {
    if caller.challengeId != "" then caller.challengeId else if caller.email != "" then caller.email else "unknown"
  }

  function Address(caller: Caller): string {
    Trim(Before(if caller.ip != "" then caller.ip else if caller.forwardedFor != "" then caller.forwardedFor
                else "unknown", ','))
  }

  function Key(caller: Caller): string {
    "mfa:" + Identifier(caller) + ":" + Address(caller)
  }

  /** Callers share a key exactly when identifier and address agree, or a part of the
      identifier of one, from a colon on, is the beginning of the address of the other. */
  lemma KeyExact(caller: Caller, caller': Caller)
    ensures Key(caller) == Key(caller')
       <==> || (Identifier(caller) == Identifier(caller') && Address(caller) == Address(caller'))
            || Straddles(Identifier(caller), Address(caller), Identifier(caller'), Address(caller'))
            || Straddles(Identifier(caller'), Address(caller'), Identifier(caller), Address(caller))
  {
    var tail, tail' := Identifier(caller) + ":" + Address(caller), Identifier(caller') + ":" + Address(caller');
    assert Key(caller) == "mfa:" + tail && Key(caller') == "mfa:" + tail';
    assert Key(caller)[4..] == tail && Key(caller')[4..] == tail';
    JoinExact(Identifier(caller), Address(caller), Identifier(caller'), Address(caller'));
  }

  /** Identifiers without colon keep their callers apart. */
  lemma PlainIdentifiers(caller: Caller, caller': Caller)
    requires ':' !in Identifier(caller) && ':' !in Identifier(caller')
    ensures Key(caller) == Key(caller')
       <==> Identifier(caller) == Identifier(caller') && Address(caller) == Address(caller')
  {
    KeyExact(caller, caller');
    NoColonNoStraddle(Identifier(caller), Address(caller), Identifier(caller'), Address(caller'));
    NoColonNoStraddle(Identifier(caller'), Address(caller'), Identifier(caller), Address(caller));
  }

  predicate Plain(s: string) {
    s != "" && forall i :: 0 <= i < |s| ==> s[i] != ',' && !IsSpace(s[i])
  }

  /** Callers who share a key: `x:2001` at `db8::1` with `x` at `2001:db8::1`, and so for any
      identifier, part of an address and rest of it. */
  lemma KeysCollide(identifier: string, part: string, rest: string)
    requires identifier != "" && Plain(part) && Plain(rest)
    ensures var caller := Caller(rest, "", identifier + ":" + part, "");
            var caller' := Caller(part + ":" + rest, "", identifier, "");
            && Identifier(caller) != Identifier(caller') && Address(caller) == rest
            && Address(caller') == part + ":" + rest && Key(caller) == Key(caller')
  {
    PlainText(rest, ',');
    PlainText(part + ":" + rest, ',');
    var caller := Caller(rest, "", identifier + ":" + part, "");
    var caller' := Caller(part + ":" + rest, "", identifier, "");
    assert (identifier + ":" + part)[|identifier| + 1..] == part;
    assert Straddles(identifier + ":" + part, rest, identifier, part + ":" + rest);
    KeyExact(caller, caller');
  }

  /** The challenge comes before the email. */
  lemma IdentifierExact(caller: Caller, email: string)
    ensures caller.challengeId != "" ==> Identifier(caller.(email := email)) == caller.challengeId
    ensures caller.challengeId != "" ==> Key(caller) == "mfa:" + caller.challengeId + ":" + Address(caller)
    ensures caller.challengeId == "" && email != "" ==> Identifier(caller.(email := email)) == email
    ensures caller.challengeId == "" ==> Identifier(caller.(email := "")) == "unknown"
  {
  }

  /** The address of the connection comes before the forwarding hosts, of which the first
      counts. */
  lemma AddressExact(caller: Caller, host: string, others: string)
    requires ',' !in host && ',' !in caller.ip
    ensures caller.ip != "" ==> Address(caller.(forwardedFor := host)) == Trim(caller.ip)
    ensures caller.ip == "" && host != "" ==>
              && Address(caller.(forwardedFor := host)) == Trim(host)
              && Address(caller.(forwardedFor := host + [','] + others)) == Trim(host)
    ensures caller.ip == "" ==> Address(caller.(forwardedFor := "")) == "unknown"
  {
    BeforeSeparator(host, ',', others);
    BeforeSeparator(caller.ip, ',', others);
    PlainText("unknown", ',');
  }

  function Lookup(records: map<string, Record>, key: string): Option<Record> {
    if key in records then Some(records[key]) else None
  }

  /** No lock lasts and the window of the record has passed. */
  predicate Rested(record: Record, request: Request) {
    && record.windowStart < request.arrival - WINDOW
    && (record.lockedUntil.Some? ==> record.lockedUntil.value <= request.lockCheck)
  }

  /** When a call is let in for certain: the first of its key, one with room in the window,
      and one that comes when the window is over. */
  predicate HasRoom(record: Option<Record>, request: Request, maxAttempts: int) {
    record.Some? ==>
      || (maxAttempts >= 2 && Rested(record.value, request))
      || (record.value.attempts + 1 < maxAttempts && !Locked(record, request))
  }

  /** The record after such a call: one attempt more, or one attempt of a new window without
      lock. */
  ghost predicate CountsOne(record: Option<Record>, request: Request, after: Option<Record>) {
    && after.Some?
    && if record == None || record.value.windowStart < request.arrival - WINDOW
       then after.value == Record(1, request.start, None)
       else after.value == record.value.(attempts := record.value.attempts + 1)
  }

  /** A call with room is let in and counted; a locked one is not and changes nothing. */
  lemma RoomExact(record: Option<Record>, request: Request, maxAttempts: int)
    requires request.Valid() && Wellformed(record)
    ensures Visit(record, request, maxAttempts, Up).admitted <==> HasRoom(record, request, maxAttempts)
    ensures HasRoom(record, request, maxAttempts) ==>
              CountsOne(record, request, Visit(record, request, maxAttempts, Up).record)
    ensures Locked(record, request) ==> Visit(record, request, maxAttempts, Up).record == record
  {
  }

  class MfaRateLimiterGuard {
    const maxAttempts: int
    var records: map<string, Record>

    constructor (maxAttempts: int)
      ensures this.maxAttempts == maxAttempts && records == map[]
    {
      this.maxAttempts := maxAttempts;
      records := map[];
    }

    method CanActivate(caller: Caller, request: Request, db: Database) returns (admitted: bool)
      modifies this
      ensures Outcome(Lookup(records, Key(caller)), admitted)
           == Visit(Lookup(old(records), Key(caller)), request, maxAttempts, db)
      ensures records - {Key(caller)} == old(records) - {Key(caller)}
      ensures db == Up && request.Valid() && Wellformed(Lookup(old(records), Key(caller))) ==>
                && (admitted <==> HasRoom(Lookup(old(records), Key(caller)), request, maxAttempts))
                && (admitted ==> CountsOne(Lookup(old(records), Key(caller)), request, Lookup(records, Key(caller))))
      ensures db != Up ==> Lookup(records, Key(caller)) == Lookup(old(records), Key(caller))
      ensures db == ReadFails ==> admitted
      ensures db == SaveFails ==> (admitted <==> !Locked(Lookup(old(records), Key(caller)), request))
    {
      var key := Key(caller);
      if request.Valid() && Wellformed(Lookup(records, key)) {
        RoomExact(Lookup(records, key), request, maxAttempts);
      }
      admitted := Serve(key, request, db);
    }

    method Serve(key: string, request: Request, db: Database) returns (admitted: bool)
      modifies this
      ensures Outcome(Lookup(records, key), admitted) == Visit(Lookup(old(records), key), request, maxAttempts, db)
      ensures records - {key} == old(records) - {key}
    {
      if db == ReadFails {
        return true;
      }
      if key in records {
        var record := records[key];
        if record.lockedUntil.Some? && request.lockCheck < record.lockedUntil.value {
          return false;
        }
        if record.windowStart < request.arrival - WINDOW {
          record := record.(attempts := 0);
          record := record.(windowStart := request.start);
          record := record.(lockedUntil := None);
        }
        record := record.(attempts := record.attempts + 1);
        if record.attempts >= maxAttempts {
          record := record.(lockedUntil := Some(request.done + LOCKOUT));
          if db == SaveFails {
            return true;
          }
          records := records[key := record];
          return false;
        }
        if db == SaveFails {
          return true;
        }
        records := records[key := record];
      } else {
        if db == SaveFails {
          return true;
        }
        records := records[key := Record(1, request.start, None)];
      }
      return true;
    }

    method ResetLimit(key: string)
      modifies this
      ensures Lookup(records, key) == None
      ensures records == old(records) - {key}
    {
      records := records - {key};
    }
  }

  // ----- runs of one key

  predicate Serial(run: seq<Request>, now: int) {
    run == [] || (now <= run[0].arrival && run[0].Valid() && Serial(run[1..], run[0].done))
  }

  /** The decisions of the guard along a run. */
  function Decisions(record: Option<Record>, run: seq<Request>, maxAttempts: int, clears: bool := true)
    : (admitted: seq<bool>)
    ensures |admitted| == |run|
    decreases run
  {
    if run == [] then []
    else
      var first := Attempt(record, run[0], maxAttempts, clears);
      [first.admitted] + Decisions(first.record, run[1..], maxAttempts, clears)
  }

  /** How many requests that arrive between `a` and `b` are admitted. */
  function Admitted(record: Option<Record>, run: seq<Request>, maxAttempts: int, a: int, b: int): nat
    decreases run
  {
    if run == [] then 0
    else
      var first := Attempt(record, run[0], maxAttempts);
      (if first.admitted && a <= run[0].arrival <= b then 1 else 0)
      + Admitted(first.record, run[1..], maxAttempts, a, b)
  }

  function Max(x: int, y: int): int {
    if x > y then x else y
  }

  /** The most a key is ever granted in one window length. */
  function Limit(maxAttempts: int): int {
    Max(1, 2 * maxAttempts - 3)
  }

  /** A record is born with its first attempt. */
  predicate Wellformed(record: Option<Record>) {
    record.Some? ==> record.value.attempts >= 1
  }

  /** What the interval can still admit once it has begun: the rest of the current window,
      and a whole further one if the current window began before the interval. */
  function Remaining(record: Record, maxAttempts: int, a: int): int {
    Max(0, maxAttempts - 1 - record.attempts)
    + (if record.windowStart < a then Max(0, maxAttempts - 1) else 0)
  }

  lemma {:induction false} NothingAfter(record: Option<Record>, run: seq<Request>, maxAttempts: int,
                                        a: int, b: int, now: int)
    requires Serial(run, now) && now > b
    ensures Admitted(record, run, maxAttempts, a, b) == 0
    decreases run
  {
    if run != [] {
      NothingAfter(Attempt(record, run[0], maxAttempts).record, run[1..], maxAttempts, a, b, run[0].done);
    }
  }

  lemma {:induction false} RemainingBounds(record: Option<Record>, run: seq<Request>, maxAttempts: int,
                                           a: int, now: int)
    requires record.Some? && Serial(run, now) && now >= a
    ensures Admitted(record, run, maxAttempts, a, a + WINDOW) <= Remaining(record.value, maxAttempts, a)
    decreases run
  {
    if run == [] {
    } else if run[0].arrival > a + WINDOW {
      NothingAfter(record, run, maxAttempts, a, a + WINDOW, run[0].arrival);
    } else {
      var first := Attempt(record, run[0], maxAttempts);
      RemainingBounds(first.record, run[1..], maxAttempts, a, run[0].done);
    }
  }

  /** On any run, whatever the record it starts from, no interval one window long admits
      more than Limit attempts. */
  lemma {:induction false} AdmissionBound(record: Option<Record>, run: seq<Request>, maxAttempts: int, a: int, now: int)
    requires Wellformed(record) && Serial(run, now)
    ensures Admitted(record, run, maxAttempts, a, a + WINDOW) <= Limit(maxAttempts)
    decreases run
  {
    if run == [] {
    } else if record == None {
      var first := Attempt(record, run[0], maxAttempts);
      if run[0].arrival >= a {
        RemainingBounds(first.record, run[1..], maxAttempts, a, run[0].done);
        assert first.record.value.windowStart >= a;
      } else {
        AdmissionBound(first.record, run[1..], maxAttempts, a, run[0].done);
      }
    } else if run[0].arrival >= a {
      RemainingBounds(record, run, maxAttempts, a, run[0].arrival);
    } else {
      AdmissionBound(Attempt(record, run[0], maxAttempts).record, run[1..], maxAttempts, a, run[0].done);
    }
  }

  // ----- the bound is reached

  function At(time: int): Request {
    Request(time, time, time, time)
  }

  function Repeat(request: Request, n: nat): (run: seq<Request>)
    ensures |run| == n
  {
    if n == 0 then [] else [request] + Repeat(request, n - 1)
  }

  /** One attempt opens a window, the window is used up in its last instant, and the next
      window right after it. */
  function Burst(maxAttempts: int): seq<Request> {
    [At(0)] + (Repeat(At(WINDOW), Max(0, maxAttempts - 2)) + Repeat(At(WINDOW + 1), Max(0, maxAttempts - 1)))
  }

  lemma BurstReachesLimit(maxAttempts: int)
    requires maxAttempts >= 2
    ensures Serial(Burst(maxAttempts), 0)
    ensures Admitted(None, Burst(maxAttempts), maxAttempts, WINDOW, WINDOW + WINDOW) == Limit(maxAttempts)
  {
    var n := maxAttempts;
    var tail := Repeat(At(WINDOW + 1), n - 1);
    var run := Repeat(At(WINDOW), n - 2) + tail;
    assert Burst(n)[1..] == run;
    FillWindow(1, 0, WINDOW, n - 2, tail, n, WINDOW);
    var full := Some(Record(n - 1, 0, None));
    RepeatSerial(At(WINDOW + 1), n - 1, [], WINDOW);
    assert Repeat(At(WINDOW + 1), n - 1) + [] == tail;
    RepeatSerial(At(WINDOW), n - 2, tail, 0);
    assert tail == [At(WINDOW + 1)] + Repeat(At(WINDOW + 1), n - 2);
    var again := Attempt(full, At(WINDOW + 1), n);
    assert again == Outcome(Some(Record(1, WINDOW + 1, None)), true);
    assert tail[1..] == Repeat(At(WINDOW + 1), n - 2);
    FillWindow(1, WINDOW + 1, WINDOW + 1, n - 2, [], n, WINDOW);
    assert Repeat(At(WINDOW + 1), n - 2) + [] == Repeat(At(WINDOW + 1), n - 2);
  }

  /** Attempts within an open window are admitted one after another up to the maximum. */
  lemma {:induction false} FillWindow(used: nat, start: int, time: int, n: nat, rest: seq<Request>,
                                      maxAttempts: int, a: int)
    requires used >= 1 && start <= time <= start + WINDOW && used + n < maxAttempts
    requires a <= time <= a + WINDOW
    ensures Admitted(Some(Record(used, start, None)), Repeat(At(time), n) + rest, maxAttempts, a, a + WINDOW)
         == n + Admitted(Some(Record(used + n, start, None)), rest, maxAttempts, a, a + WINDOW)
    decreases n
  {
    var run := Repeat(At(time), n) + rest;
    if n > 0 {
      assert run[1..] == Repeat(At(time), n - 1) + rest;
      FillWindow(used + 1, start, time, n - 1, rest, maxAttempts, a);
    } else {
      assert run == rest;
    }
  }

  lemma {:induction false} RepeatSerial(request: Request, n: nat, rest: seq<Request>, now: int)
    requires request.Valid() && request.arrival == request.done && now <= request.arrival
    requires Serial(rest, request.done)
    ensures Serial(Repeat(request, n) + rest, now)
    decreases n
  {
    var run := Repeat(request, n) + rest;
    if n > 0 {
      assert run[1..] == Repeat(request, n - 1) + rest;
      RepeatSerial(request, n - 1, rest, request.done);
    } else {
      assert run == rest;
    }
  }

  // ----- the lock

  /** While a lock lasts nothing is admitted, whatever is tried in between. */
  lemma {:induction false} LockHolds(record: Record, run: seq<Request>, maxAttempts: int, now: int)
    requires Serial(run, now) && record.lockedUntil.Some?
    ensures forall i :: 0 <= i < |run| && run[i].lockCheck < record.lockedUntil.value ==>
              !Decisions(Some(record), run, maxAttempts)[i]
  {
    if run != [] {
      if run[0].lockCheck < record.lockedUntil.value {
        LockHolds(record, run[1..], maxAttempts, run[0].done);
        assert forall i :: 1 <= i < |run| ==> run[i] == run[1..][i - 1];
      } else {
        LaterRequests(run, now);
      }
    }
  }

  lemma {:induction false} LaterRequests(run: seq<Request>, now: int)
    requires Serial(run, now)
    ensures forall i :: 0 <= i < |run| ==> now <= run[i].lockCheck
    ensures forall i :: 0 < i < |run| ==> run[0].lockCheck <= run[i].lockCheck
  {
    if run != [] {
      LaterRequests(run[1..], run[0].done);
      assert forall i :: 0 < i < |run| ==> run[i] == run[1..][i - 1];
    }
  }

  /** The attempt that reaches the maximum locks the key out for 15 minutes. */
  lemma LockoutLasts(record: Option<Record>, run: seq<Request>, maxAttempts: int, now: int)
    requires run != [] && Serial(run, now) && record.Some?
    requires !Attempt(record, run[0], maxAttempts).admitted && Attempt(record, run[0], maxAttempts).record != record
    ensures forall i :: 0 <= i < |run| && run[i].lockCheck < run[0].done + 900000 ==>
              !Decisions(record, run, maxAttempts)[i]
  {
    var locked := Attempt(record, run[0], maxAttempts).record.value;
    LockHolds(locked, run[1..], maxAttempts, run[0].done);
    assert forall i :: 1 <= i < |run| ==> run[i] == run[1..][i - 1];
  }

  /** A record whose lock is over may keep it or drop it. */
  predicate SameUntil(r1: Record, r2: Record, now: int) {
    && r1.attempts == r2.attempts && r1.windowStart == r2.windowStart
    && (r1.lockedUntil == r2.lockedUntil || (Expired(r1, now) && Expired(r2, now)))
  }

  predicate Expired(r: Record, now: int) {
    r.lockedUntil.Some? ==> r.lockedUntil.value <= now
  }

  /** Whether or not saving erases an old lock, the decisions are the same. */
  lemma {:induction false} StaleLockIsHarmless(r1: Option<Record>, r2: Option<Record>, run: seq<Request>,
                                               maxAttempts: int, now: int)
    requires Serial(run, now)
    requires r1.Some? == r2.Some? && (r1.Some? ==> SameUntil(r1.value, r2.value, now))
    ensures Decisions(r1, run, maxAttempts, true) == Decisions(r2, run, maxAttempts, false)
    decreases run
  {
    if run != [] {
      var o1 := Attempt(r1, run[0], maxAttempts, true);
      var o2 := Attempt(r2, run[0], maxAttempts, false);
      StaleLockIsHarmless(o1.record, o2.record, run[1..], maxAttempts, run[0].done);
    }
  }

  // ----- many keys at once

  datatype Event = Event(key: string, request: Request)

  /** The decisions for one key while all keys are served in turn. */
  function DecisionsFor(records: map<string, Record>, events: seq<Event>, maxAttempts: int, key: string): seq<bool>
    decreases events
  {
    if events == [] then []
    else
      var outcome := Attempt(Lookup(records, events[0].key), events[0].request, maxAttempts);
      (if events[0].key == key then [outcome.admitted] else [])
      + DecisionsFor(records[events[0].key := outcome.record.value], events[1..], maxAttempts, key)
  }

  function RequestsOf(events: seq<Event>, key: string): seq<Request> {
    if events == [] then []
    else (if events[0].key == key then [events[0].request] else []) + RequestsOf(events[1..], key)
  }

  /** Keys do not influence each other: what holds of the runs of one key holds of its part
      of every interleaving. */
  lemma {:induction false} KeysAreIndependent(records: map<string, Record>, events: seq<Event>,
                                              maxAttempts: int, key: string)
    ensures DecisionsFor(records, events, maxAttempts, key)
         == Decisions(Lookup(records, key), RequestsOf(events, key), maxAttempts)
    decreases events
  {
    if events != [] {
      var outcome := Attempt(Lookup(records, events[0].key), events[0].request, maxAttempts);
      var next := records[events[0].key := outcome.record.value];
      KeysAreIndependent(next, events[1..], maxAttempts, key);
      if events[0].key == key {
        var run := RequestsOf(events, key);
        assert run[0] == events[0].request && run[1..] == RequestsOf(events[1..], key);
        assert Lookup(next, key) == outcome.record;
      } else {
        assert RequestsOf(events, key) == RequestsOf(events[1..], key);
        assert Lookup(next, key) == Lookup(records, key);
      }
    }
  }

  /** How many of the requests that arrive between `a` and `b` were admitted. */
  function CountIn(run: seq<Request>, admitted: seq<bool>, a: int, b: int): nat
    requires |run| == |admitted|
  {
    if run == [] then 0
    else (if admitted[0] && a <= run[0].arrival <= b then 1 else 0) + CountIn(run[1..], admitted[1..], a, b)
  }

  lemma {:induction false} AdmittedCounts(record: Option<Record>, run: seq<Request>, maxAttempts: int, a: int, b: int)
    ensures Admitted(record, run, maxAttempts, a, b) == CountIn(run, Decisions(record, run, maxAttempts), a, b)
    decreases run
  {
    if run != [] {
      var first := Attempt(record, run[0], maxAttempts);
      AdmittedCounts(first.record, run[1..], maxAttempts, a, b);
      assert Decisions(record, run, maxAttempts)[1..] == Decisions(first.record, run[1..], maxAttempts);
    }
  }

  /** From an empty table, with the requests of all keys interleaved in any way, every key
      stays within the bound in every interval of 15 minutes. */
  lemma EveryKeyIsBounded(events: seq<Event>, maxAttempts: int, key: string, a: int, now: int)
    requires Serial(RequestsOf(events, key), now)
    ensures |RequestsOf(events, key)| == |DecisionsFor(map[], events, maxAttempts, key)|
    ensures CountIn(RequestsOf(events, key), DecisionsFor(map[], events, maxAttempts, key), a, a + 900000)
         <= Limit(maxAttempts)
  {
    var run := RequestsOf(events, key);
    KeysAreIndependent(map[], events, maxAttempts, key);
    AdmittedCounts(None, run, maxAttempts, a, a + WINDOW);
    AdmissionBound(None, run, maxAttempts, a, now);
  }

  // ----- runs with resets and failures

  /** What can happen to the record of a key. */
  datatype Action = Try(request: Request, db: Database) | Reset(at: int)

  predicate SerialEvents(run: seq<Action>, now: int) {
    run == [] ||
    match run[0]
    case Try(request, _) => now <= request.arrival && request.Valid() && SerialEvents(run[1..], request.done)
    case Reset(at) => now <= at && SerialEvents(run[1..], at)
  }

  function After(record: Option<Record>, event: Action, maxAttempts: int): Outcome {
    match event
    case Try(request, db) => Visit(record, request, maxAttempts, db)
    case Reset(_) => Outcome(None, false)
  }

  function Time(event: Action): int {
    match event
    case Try(request, _) => request.arrival
    case Reset(at) => at
  }

  /** How many requests that arrive between `a` and `b` are admitted. */
  function AdmittedEvents(record: Option<Record>, run: seq<Action>, maxAttempts: int, a: int, b: int): nat
    decreases run
  {
    if run == [] then 0
    else
      var first := After(record, run[0], maxAttempts);
      (if first.admitted && a <= Time(run[0]) <= b then 1 else 0)
      + AdmittedEvents(first.record, run[1..], maxAttempts, a, b)
  }

  /** What a fresh record can admit in one window length. */
  function Fresh(maxAttempts: int): int {
    Max(1, maxAttempts - 1)
  }

  /** What resets and failures between `a` and `b` can add: a fresh record for every reset,
      one admission for every failure. */
  function Extra(run: seq<Action>, maxAttempts: int, a: int, b: int): int {
    if run == [] then 0
    else
      (if !(a <= Time(run[0]) <= b) then 0
       else match run[0]
            case Reset(_) => Fresh(maxAttempts)
            case Try(_, db) => if db == Up then 0 else 1)
      + Extra(run[1..], maxAttempts, a, b)
  }

  function RemainingOf(record: Option<Record>, maxAttempts: int, a: int): int {
    match record
    case None => Fresh(maxAttempts)
    case Some(r) => Remaining(r, maxAttempts, a)
  }

  lemma {:induction false} NoEventAfter(record: Option<Record>, run: seq<Action>, maxAttempts: int,
                                        a: int, b: int, now: int)
    requires SerialEvents(run, now) && now > b
    ensures AdmittedEvents(record, run, maxAttempts, a, b) == Extra(run, maxAttempts, a, b) == 0
    decreases run
  {
    if run != [] {
      var next := if run[0].Try? then run[0].request.done else run[0].at;
      NoEventAfter(After(record, run[0], maxAttempts).record, run[1..], maxAttempts, a, b, next);
    }
  }

  /** One event within the interval admits no more than it uses up. */
  lemma EventUsesUp(record: Option<Record>, event: Action, maxAttempts: int, a: int)
    requires Wellformed(record) && a <= Time(event) <= a + WINDOW && (event.Try? ==> event.request.Valid())
    ensures var first := After(record, event, maxAttempts);
            && Wellformed(first.record)
            && RemainingOf(first.record, maxAttempts, a) + (if first.admitted then 1 else 0)
               <= RemainingOf(record, maxAttempts, a) + Extra([event], maxAttempts, a, a + WINDOW)
  {
    assert Extra([event][1..], maxAttempts, a, a + WINDOW) == 0;
  }

  lemma {:induction false} EventsBounded(record: Option<Record>, run: seq<Action>, maxAttempts: int, a: int, now: int)
    requires Wellformed(record) && SerialEvents(run, now) && now >= a
    ensures AdmittedEvents(record, run, maxAttempts, a, a + WINDOW)
         <= RemainingOf(record, maxAttempts, a) + Extra(run, maxAttempts, a, a + WINDOW)
    decreases run
  {
    if run == [] {
    } else if Time(run[0]) > a + WINDOW {
      NoEventAfter(record, run, maxAttempts, a, a + WINDOW, Time(run[0]));
    } else {
      var next := if run[0].Try? then run[0].request.done else run[0].at;
      EventUsesUp(record, run[0], maxAttempts, a);
      EventsBounded(After(record, run[0], maxAttempts).record, run[1..], maxAttempts, a, next);
    }
  }

  /** On every run, with resets and failures of the database, an interval one window long
      admits no more than the limit, what a fresh record admits for each reset in it, and
      one for each failure in it. */
  lemma {:induction false} EventBound(record: Option<Record>, run: seq<Action>, maxAttempts: int, a: int, now: int)
    requires Wellformed(record) && SerialEvents(run, now)
    ensures AdmittedEvents(record, run, maxAttempts, a, a + WINDOW)
         <= Limit(maxAttempts) + Extra(run, maxAttempts, a, a + WINDOW)
    decreases run
  {
    if run == [] {
    } else if Time(run[0]) >= a {
      EventsBounded(record, run, maxAttempts, a, Time(run[0]));
    } else {
      var next := if run[0].Try? then run[0].request.done else run[0].at;
      EventBound(After(record, run[0], maxAttempts).record, run[1..], maxAttempts, a, next);
    }
  }

  // ----- nobody is locked out for good

  /** Nothing in the record lies further ahead than a lock set by now. */
  predicate Known(record: Option<Record>, now: int) {
    record.Some? ==>
      && record.value.windowStart <= now
      && (record.value.lockedUntil.Some? ==> record.value.lockedUntil.value <= now + LOCKOUT)
  }

  function Done(event: Action): int {
    match event
    case Try(request, _) => request.done
    case Reset(at) => at
  }

  /** The decisions along a run with resets and failures. */
  function EventDecisions(record: Option<Record>, run: seq<Action>, maxAttempts: int): (admitted: seq<bool>)
    ensures |admitted| == |run|
    decreases run
  {
    if run == [] then []
    else
      var first := After(record, run[0], maxAttempts);
      [first.admitted] + EventDecisions(first.record, run[1..], maxAttempts)
  }

  /** In every serial run these are admitted, whatever was tried before: the first request
      after a reset, any request whose record cannot be read, and, for a maximum of at least
      2, any request that comes more than 15 minutes after everything before. */
  lemma {:induction false} LetInAgain(record: Option<Record>, run: seq<Action>, maxAttempts: int, k: nat, now: int)
    requires SerialEvents(run, now) && Known(record, now) && k < |run| && run[k].Try?
    requires || run[k].db == ReadFails
             || (k > 0 && run[k - 1].Reset?)
             || (maxAttempts >= 2
                 && run[k].request.arrival > (if k == 0 then now else Done(run[k - 1])) + 900000)
    ensures EventDecisions(record, run, maxAttempts)[k]
    decreases k
  {
    if k > 0 {
      var first := After(record, run[0], maxAttempts);
      assert run[1..][k - 1] == run[k] && (k > 1 ==> run[1..][k - 2] == run[k - 1]);
      if k == 1 && run[0].Reset? {
        assert EventDecisions(None, run[1..], maxAttempts)[0];
      } else {
        LetInAgain(first.record, run[1..], maxAttempts, k - 1, Done(run[0]));
      }
    }
  }

  /** The same for runs of requests alone. */
  lemma {:induction false} RestedIsLetIn(record: Option<Record>, run: seq<Request>, maxAttempts: int, k: nat, now: int)
    requires Serial(run, now) && Known(record, now) && k < |run| && maxAttempts >= 2
    requires run[k].arrival > (if k == 0 then now else run[k - 1].done) + 900000
    ensures Decisions(record, run, maxAttempts)[k]
    decreases k
  {
    if k > 0 {
      assert run[1..][k - 1] == run[k] && (k > 1 ==> run[1..][k - 2] == run[k - 1]);
      RestedIsLetIn(Attempt(record, run[0], maxAttempts).record, run[1..], maxAttempts, k - 1, run[0].done);
    }
  }
}
