# PartnerIQ backend: verified models

A Dafny project that models the parts of the backend with loops, state or arithmetic and
proves what they keep. `dafny verify dfyconfig.toml` checks all of it.

| file | models |
|---|---|
| `Wrappers.dfy`, `Text.dfy`, `Decimal.dfy` | optional values, string operations, numerals |
| `Int32.dfy`, `Base32.dfy`, `Totp.dfy` | base32 and one-time codes on 32-bit integers |
| `PayoutCalendar.dfy`, `PayoutRuns.dfy`, `PayoutSchedule.dfy` | the next settlement run on the proleptic Gregorian calendar |
| `WriteBehindStore.dfy`, `DbBackedArray.dfy` | the array mirrored to a table by writes nobody waits for |
| `MfaRateLimiter.dfy` | the attempt limiter as a timed state machine |
| `PayoutsCsv.dfy` | the payout export against an RFC 4180 reader |
| `Rounding.dfy`, `AdminLedger.dfy`, `LedgerEffects.dfy`, `PlatformBatches.dfy`, `AdminServices.dfy`, `Grouping.dfy` | conversions, commissions and payouts under administration |
| `RouteNormalizer.dfy`, `ApiTelemetry.dfy`, `TelemetryEntry.dfy`, `ApiTelemetryService.dfy` | normalised routes, error groups and quotas |
| `RevenueSeries.dfy`, `TopPerformers.dfy`, `TopAffiliates.dfy` | time series and rankings |

Code that updates things step by step is a method with loops, or a class, proved against a
function of the old state; the properties are lemmas about these functions, over every input
and every run. Where a function gives what an operation does, a lemma says it again from the
inputs and the state before and after, and the method promises that too.

## What does not hold

Where the code keeps less than its documentation or its purpose suggests, an input that shows it
and the exact condition are proved.

- `normalizeRoutePath` is not idempotent: a UUID directly followed by the last 35 characters
  of another (with no match beginning in them) leaves a text that the d of `:id` completes to a
  UUID (`IdempotentExact`, `NotIdempotent`). A UUID after 28 to 35 characters of another is torn
  apart by the leftmost match, so which UUID fills such a slot matters (`SlotExact`,
  `SlotMatters`).
- The limiter admits at most max(1, 2M - 3) attempts in an interval one window long, and this
  is reached; 2(M - 1) never is.
- A splice that puts back an id it removes loses the row, since its delete is issued after its
  upserts (`SpliceMirrorExact`). An assignment through the object handed to `push` is not
  written (`AssignOriginalExact`), one to a removed entity brings its row back
  (`AssignRemovedExact`). `MirrorIsLost` shows each.
- `awaitPersist` does not wait for deletes: the row of a settled entity that is removed stays
  until all that was in flight and the delete have landed (`PoppedRowExact`, `ShiftedRowExact`,
  `SplicedRowExact`; `RemovalIsNotAwaited` is such a state).
- `Date.UTC` takes the years 0 to 99 for 1900 to 1999, so for a `from` in them, and for no
  other, the answer is not the next run (`NextRunExact`, `RemappedRun`). Cutting the formatted
  date after ten characters loses its day exactly outside the years 0 to 9999 (`IsoDateExact`,
  `LongYearIsCut`).
- The comment above `resolveNextPayoutDate` promises a run at or after `from`; the code gives
  one strictly after today, which is the same exactly when today is no day of the schedule
  (`AtOrAfterExact`, `DailyIsNotToday`).
- Quarterly runs count from the month of `from`, so they are not monotone in it
  (`QuarterlyIsNotMonotone`). `QuarterlyOrderExact` says exactly when, for every day token, and
  `QuarterlyMonotoneExact` by the position of the two starts in their months.
- `recalculateCommission` can leave more reversed than earned, or a refunded commission with
  money left (`RecalculationUnsettles`; `StepSettlesExactly` says exactly when). From a start
  at which every commission is up to date it never does (`MoneyWhenUpToDate`).
- The monthly series compares with the same months a year earlier, which is the preceding span
  only for twelve months; `90d` covers 91 days (`PreviousSpanExact`, `RequestedSpanExact`).
- Error codes may contain a colon, so two different pairs of route and code can share a
  fingerprint (`FingerprintsCollide`), exactly when one code ends with a colon and the other
  (`CodesCollideExact`). Identifiers of the limiter are joined to addresses in the same way
  (`KeysCollide`, `KeyExact`).

## Assumptions

- Writes of the store land in the order they were issued and succeed; the source only logs
  failures. Ids are unique and not empty.
- Requests of the limiter for one key do not overlap and its clock does not run backwards. M is
  any integer.
- HMAC-SHA-1 is any function with a 20-byte result, the fingerprint digest any function with a
  non-empty one. Changing the case of characters is any table; for one-time secrets it is right
  on ASCII.
- Local midnights grow with the date; nothing else is assumed about time zones.
- Amounts are integers in minor units, so sums and `Math.round` are exact.

## Model

| member | source | states |
|---|---|---|
| `Int32.AppendBits` | src/common/utils/security.utils.ts:66-66 | the accumulator shifted by k, or-ed with the piece, has the bits of the accumulator followed by those of the piece, for every accumulator, however often it has overflowed |
| `Int32.TakeBits` | src/common/utils/security.utils.ts:70-70 | `(acc >>> (n - k)) & mask` is the first k of the n pending bits |
| `Int32.MaskIsMod` | src/common/utils/security.utils.ts:117-117 | `x & (2^k - 1)` is the remainder modulo 2^k for every integer, also beyond 32 bits and negative |
| `Int32.OrAdds` | src/common/utils/security.utils.ts:123-123 | bitwise or of a multiple of 2^k and a number below 2^k adds them |
| `Base32.AlphabetTable` | src/common/utils/security.utils.ts:60-60 | the two index functions agree with the literal alphabet in both directions |
| `Base32.Encode` | src/common/utils/security.utils.ts:59-80 | the loop with the unmasked 32-bit accumulator prints the bit string of the input five bits a symbol, zero bits completing the last |
| `Base32.Decode` | src/common/utils/security.utils.ts:82-99 | the loop collects five bits for every alphabet character, skips others and drops an incomplete byte |
| `Base32.DecodeEncode` | src/common/utils/security.utils.ts:59-99 | every byte string is decoded from its encoding, which has ceil(8n/5) symbols |
| `Base32.EncodeDecode` | src/common/utils/security.utils.ts:59-99 | a text is encoded from its decoding if and only if it has alphabet characters only and its spare bits are fewer than a symbol and zero |
| `Base32.EncodedIsCanonical` | src/common/utils/security.utils.ts:59-80 | every encoding is such a text |
| `Base32.SymbolBitsOfSymbols` | src/common/utils/security.utils.ts:59-99 | reading symbols gives back the printed bits and the completing zeros |
| `Base32.ByteBitsOfBytes` | src/common/utils/security.utils.ts:93-96 | decoding keeps exactly the bits of whole bytes |
| `Decimal.FixedWidth` | src/common/utils/security.utils.ts:124-124 | the padded numeral of n is the one digit string of that width with value n |
| `Decimal.ParseShow` | src/common/utils/security.utils.ts:124-124 | a numeral has the value it was printed from |
| `Totp.GenerateTotpSecret` | src/common/utils/security.utils.ts:101-108 | the secret has 32 characters and stands for exactly the 20 random bytes after the stripping, upper-casing and decoding of a login |
| `Totp.CounterBuffer` | src/common/utils/security.utils.ts:114-119 | the loop writes the eight low bytes of the counter, highest first |
| `Totp.CounterBytes` | src/common/utils/security.utils.ts:114-119 | those bytes read as a number are the counter modulo 2^64, for every integer |
| `Totp.CounterIsExact` | src/common/utils/security.utils.ts:114-119 | and the counter itself for 0 <= counter < 2^53 |
| `Totp.TruncationIsTruncate` | src/common/utils/security.utils.ts:122-123 | offset and four bytes are in range and the shift-and-or expression is the 31-bit number of section 5.3 of RFC 4226 |
| `Totp.GenerateTotpCode` | src/common/utils/security.utils.ts:110-125 | the code is the zero-padded six-digit HOTP value of the decoded key at the counter, by default that of the moment: the last six of the ten digits of the truncated digest |
| `Totp.CodeIsLastSix` | src/common/utils/security.utils.ts:123-124 | the code is the last six digits of the ten-digit numeral of the truncated digest |
| `Totp.VerifyTotpCode` | src/common/utils/security.utils.ts:127-139 | a code is accepted if and only if it is six digits, the secret is not empty and some counter of the skew window generates it |
| `Totp.EnrolledCodes` | src/common/utils/security.utils.ts:101-139 | from enrolment to login: with the generated secret a code is accepted if and only if its value is the HOTP value of the random key at a counter in the window |
| `Totp.AcceptsExact` | src/common/utils/security.utils.ts:127-139 | a code is accepted if and only if the secret is not empty and it is the code of some moment at most 30 seconds, times the skew window, away |
| `Totp.TypedSecret` | src/common/utils/security.utils.ts:110-113 | a generated secret typed with white space and in lower case stands for the same random bytes |
| `Text.StripJoin` | src/common/utils/security.utils.ts:112-112 | white space goes and everything else stays, wherever it stands |
| `PayoutCalendar.MonthStartFormula` | src/common/utils/payout-schedule.utils.ts:45-47 | laying months end to end gives DayFromYear and DayWithinYear of section 21.4.1 of ECMA-262 |
| `PayoutCalendar.YearFromTime` | src/common/utils/payout-schedule.utils.ts:45-47 | the year of a date is that of YearFromTime |
| `PayoutCalendar.CivilRoundTrip` | src/common/utils/payout-schedule.utils.ts:45-47 | a date is rebuilt from its fields, through `Date.UTC` if and only if its year is not 0 to 99 |
| `PayoutCalendar.DayRoundTrip` | src/common/utils/payout-schedule.utils.ts:126-126 | a date built from valid fields has these fields |
| `PayoutCalendar.OverflowIffShort` | src/common/utils/payout-schedule.utils.ts:127-129 | `getUTCDate() !== day` exactly when the month is too short |
| `PayoutCalendar.NextMonthlyOccurrence` | src/common/utils/payout-schedule.utils.ts:109-136 | the loop with its early return and continue takes the first accepted step |
| `PayoutCalendar.FoundIsNext` | src/common/utils/payout-schedule.utils.ts:109-136 | what the first accepted step yields is the earliest later date on the calendar of the day token |
| `PayoutCalendar.FallbackUnreachable` | src/common/utils/payout-schedule.utils.ts:116-135 | the search succeeds by step 2 for monthly and step 3 for quarterly runs |
| `PayoutCalendar.NextOccurrenceExact` | src/common/utils/payout-schedule.utils.ts:109-136 | for the day it is given, the search finds the next date of the schedule if and only if the year of that day is not 0 to 99, the years `Date.UTC` remaps; no caller gives it such a day |
| `PayoutCalendar.MonthlyIsMonotone` | src/common/utils/payout-schedule.utils.ts:66-70 | a later start never has an earlier monthly run |
| `PayoutRuns.RunsStayOnSchedule` | src/common/utils/payout-schedule.utils.ts:66-76 | asking again from each monthly or quarterly run gives later and later dates of the schedule |
| `PayoutRuns.RunsSkipNothing` | src/common/utils/payout-schedule.utils.ts:66-76 | and visits every date of it |
| `PayoutRuns.QuarterlyRun` | src/common/utils/payout-schedule.utils.ts:72-76 | the quarterly run is told from the lengths of the months: this month if its day is still to come, otherwise the first month long enough by quarters |
| `PayoutRuns.QuarterlyOrderExact` | src/common/utils/payout-schedule.utils.ts:72-76 | two starts have their quarterly runs in order if and only if these months are in order, for every day token |
| `PayoutRuns.QuarterlyMonotoneExact` | src/common/utils/payout-schedule.utils.ts:72-76 | for days that every month has, a later start has an earlier run if and only if it is one or two months on, before its day, and the day of the earlier start is over |
| `PayoutRuns.QuarterlyMonotoneInClass` | src/common/utils/payout-schedule.utils.ts:72-76 | for starts a whole number of quarters apart runs are monotone |
| `PayoutRuns.QuarterlyIsNotMonotone` | src/common/utils/payout-schedule.utils.ts:72-76 | in every year from 100 on: the 10th from January 15 and from February 1 |
| `PayoutSchedule.ParseDayExact` | src/common/utils/payout-schedule.utils.ts:92-102 | trimmed and in lower case, a text names day d if and only if it is a one- or two-digit numeral of d with one of the four endings or none, the last day if and only if it is one of two words, and otherwise nothing |
| `PayoutSchedule.AtOrAfterExact` | src/common/utils/payout-schedule.utils.ts:31-34 | the run is also the first one at or after today if and only if today is not a day of the schedule, for every schedule |
| `PayoutSchedule.DailyIsNotToday` | src/common/utils/payout-schedule.utils.ts:50-51 | a daily schedule: on every day the answer is not the first run at or after today |
| `PayoutSchedule.WeekDaysFollow` | src/common/utils/payout-schedule.utils.ts:16-24 | 1970-01-01 is a Thursday and every day is named by the weekday after that of the day before |
| `PayoutSchedule.WeeklyDelta` | src/common/utils/payout-schedule.utils.ts:53-60 | the weekly step reaches the first later date with the weekday |
| `PayoutSchedule.TodayIsItself` | src/common/utils/payout-schedule.utils.ts:45-47 | midnight of the day of `from` is that day if and only if its year is not 0 to 99, and never lies in these years |
| `PayoutSchedule.NextRunExact` | src/common/utils/payout-schedule.utils.ts:36-82 | for every schedule the run found is the next one after the day of `from` if and only if the year of that day is not 0 to 99 |
| `PayoutSchedule.TermsMean` | src/common/utils/payout-schedule.utils.ts:36-82 | from the text of the terms: DAILY is one day on, BIWEEKLY and FORTNIGHTLY fourteen, WEEKLY the first later day with the weekday named, MONTHLY the first later day of the month named, QUARTERLY the first such in a month a multiple of three on, and everything else nothing |
| `PayoutSchedule.RemappedRun` | src/common/utils/payout-schedule.utils.ts:45-51 | such days: January 1 of each of these years |
| `PayoutSchedule.LongYearIsCut` | src/common/utils/payout-schedule.utils.ts:142-144 | January 1 of the year 10000 does not read back |
| `PayoutSchedule.IsoDateExact` | src/common/utils/payout-schedule.utils.ts:142-144 | the formatted date reads back as the day if and only if its year has four digits |
| `PayoutSchedule.NextRunDay` | src/common/utils/payout-schedule.utils.ts:36-82 | nothing exactly for terms that pin no date, otherwise the first run strictly after today |
| `PayoutSchedule.ResolveNextPayoutDate` | src/common/utils/payout-schedule.utils.ts:36-82 | the formatted day the text of the terms asks for, null if it asks for none, with the condition on the year of `from` |
| `WriteBehindStore.ReplayAppend` | src/database/store.ts:462-475 | operations land one after the other: replaying a queue is replaying its parts |
| `WriteBehindStore.TableAppend` | src/database/store.ts:462-475 | upserting added entities turns the table of the others into that of all |
| `WriteBehindStore.TableAddRemove` | src/database/store.ts:541-558 | upserts followed by a delete give the table of what stays and what was added if and only if no added id is among the deleted |
| `WriteBehindStore.PushKeepsMirror` | src/database/store.ts:529-539 | after push and unshift the operations in flight still lead to exactly the entities |
| `WriteBehindStore.SpliceMirrorExact` | src/database/store.ts:541-558 | a splice keeps the mirror if and only if it does not insert an id it removes, because its upserts are issued first |
| `WriteBehindStore.SplicesAtEnds` | src/database/store.ts:529-588 | push, unshift, pop and shift are splices at an end of the array |
| `WriteBehindStore.SpliceStarts` | src/database/store.ts:541-542 | a negative start counts from the end, one before the array is its beginning, one behind it its end |
| `WriteBehindStore.SpliceRemoves` | src/database/store.ts:541-542 | as many entities go as asked for and there are, all behind the start if no number is given, none for a negative one |
| `WriteBehindStore.PopKeepsMirror` | src/database/store.ts:560-573 | pop keeps the mirror |
| `WriteBehindStore.ShiftKeepsMirror` | src/database/store.ts:575-588 | shift keeps the mirror |
| `WriteBehindStore.AssignKeepsMirror` | src/database/store.ts:513-524 | an assignment through the proxy keeps the mirror |
| `WriteBehindStore.AssignAssigns` | src/database/store.ts:513-524 | an assignment gives the property of the entity the value, changes no other property and no other entity, and the operations in flight lead to a row with the value |
| `WriteBehindStore.AssignOriginalExact` | src/database/store.ts:529-533 | an assignment through the object handed to push keeps the mirror if and only if it changes nothing |
| `WriteBehindStore.AssignRemovedExact` | src/database/store.ts:513-524 | an assignment to a removed entity keeps the mirror if and only if an equal entity is in the array |
| `WriteBehindStore.MirrorIsLost` | src/database/store.ts:500-573 | calls that lose the mirror in each of the three ways |
| `WriteBehindStore.LandKeepsMirror` | src/database/store.ts:462-475 | landing the oldest operation keeps the mirror |
| `WriteBehindStore.PushTracks` | src/database/store.ts:529-539 | after push and unshift no operation behind the promise of an entity concerns it |
| `WriteBehindStore.SpliceTracks` | src/database/store.ts:541-558 | the same for splice |
| `WriteBehindStore.AssignTracks` | src/database/store.ts:513-524 | the same for an assignment |
| `WriteBehindStore.StepKeepsInvariant` | src/database/store.ts:462-588 | every operation keeps mirror and promises |
| `WriteBehindStore.RunKeepsInvariant` | src/database/store.ts:462-588 | and so does every run |
| `WriteBehindStore.MirrorOverRuns` | src/database/store.ts:462-588 | in every reachable state replaying the operations in flight gives exactly the entities, and once the promise of an entity has resolved its row holds its fields |
| `WriteBehindStore.LastValueIsKept` | src/database/store.ts:462-588 | from every reachable state on, a property of an entity that stays in the array has the value assigned last, and once the promise has resolved so has its row |
| `WriteBehindStore.PoppedRowExact` | src/database/store.ts:560-573 | in every reachable state the row of a settled entity that is popped is still there if and only if no more operations have landed than were in flight; so it always is when pop returns |
| `WriteBehindStore.ShiftedRowExact` | src/database/store.ts:575-588 | the same for shift |
| `WriteBehindStore.SplicedRowExact` | src/database/store.ts:541-558 | the same for each entity a splice removes, behind the upserts of what it inserts |
| `WriteBehindStore.RemovalIsNotAwaited` | src/database/store.ts:1211-1217 | such a state: `awaitPersist` of a popped entity does not wait although its row is there |
| `DbBackedArray.DBBackedArray.PersistAll` | src/database/store.ts:462-475 | one upsert an item in order, then the promise of all on every item |
| `DbBackedArray.DBBackedArray.Push` | src/database/store.ts:529-533 | array, repository and promises after push |
| `DbBackedArray.DBBackedArray.Unshift` | src/database/store.ts:535-539 | array, repository and promises after unshift |
| `DbBackedArray.DBBackedArray.Splice` | src/database/store.ts:541-558 | array, repository, promises and the removed entities of a splice with any start and count |
| `DbBackedArray.DBBackedArray.Pop` | src/database/store.ts:560-573 | array, repository and result of pop |
| `DbBackedArray.DBBackedArray.Shift` | src/database/store.ts:575-588 | array, repository and result of shift |
| `DbBackedArray.DBBackedArray.Assign` | src/database/store.ts:513-524 | entity, repository and promise after an assignment: the property has the value, in the entity and in the row to come, and nothing else differs |
| `MfaRateLimiter.MfaRateLimiterGuard.CanActivate` | src/common/guards/mfa-rate-limiter.guard.ts:28-102 | record and decision of one call: let in if and only if it has room, counted in the old window or as the first of a new one, also when the database fails before the read or at the save, and no other key changes |
| `MfaRateLimiter.MfaRateLimiterGuard.ResetLimit` | src/common/guards/mfa-rate-limiter.guard.ts:108-115 | the record of the key is gone, the others stay |
| `MfaRateLimiter.AdmissionBound` | src/common/guards/mfa-rate-limiter.guard.ts:42-93 | on every run from every record no closed interval one window long admits more than max(1, 2M - 3) attempts, one less than twice M - 1 |
| `MfaRateLimiter.BurstReachesLimit` | src/common/guards/mfa-rate-limiter.guard.ts:42-93 | for every M >= 2 some run reaches that number |
| `MfaRateLimiter.RemainingBounds` | src/common/guards/mfa-rate-limiter.guard.ts:60-67 | once the interval has begun, the rest of the current window and one further window bound what is admitted |
| `MfaRateLimiter.LockHolds` | src/common/guards/mfa-rate-limiter.guard.ts:45-58 | nothing is admitted before the lock ends |
| `MfaRateLimiter.LockoutLasts` | src/common/guards/mfa-rate-limiter.guard.ts:69-82 | the attempt that reaches the maximum locks the key for the whole period |
| `MfaRateLimiter.RoomExact` | src/common/guards/mfa-rate-limiter.guard.ts:42-93 | a call is let in if and only if it is the first of its key, there is room in its window, or window and lock are over and the maximum is at least 2; it is counted, in the last case in a new window without lock |
| `MfaRateLimiter.LetInAgain` | src/common/guards/mfa-rate-limiter.guard.ts:19-115 | in every serial run these are let in: the first call after a reset, a call whose record cannot be read, and for a maximum of at least 2 any call more than 15 minutes after everything before it |
| `MfaRateLimiter.RestedIsLetIn` | src/common/guards/mfa-rate-limiter.guard.ts:22-93 | the same for runs of calls alone: no key is locked out for good |
| `MfaRateLimiter.StaleLockIsHarmless` | src/common/guards/mfa-rate-limiter.guard.ts:60-65 | a guard that never erases an old lock decides the same on every run |
| `MfaRateLimiter.KeysAreIndependent` | src/common/guards/mfa-rate-limiter.guard.ts:35-42 | in every interleaving the decisions for a key are those of its own requests |
| `MfaRateLimiter.EveryKeyIsBounded` | src/common/guards/mfa-rate-limiter.guard.ts:28-95 | so every key stays within the bound in every interleaving |
| `MfaRateLimiter.KeyExact` | src/common/guards/mfa-rate-limiter.guard.ts:30-35 | two callers share a key if and only if identifier and address agree or a part of the identifier of one, behind a colon, is the beginning of the address of the other |
| `MfaRateLimiter.PlainIdentifiers` | src/common/guards/mfa-rate-limiter.guard.ts:30-35 | so identifiers without colon keep their callers apart |
| `MfaRateLimiter.KeysCollide` | src/common/guards/mfa-rate-limiter.guard.ts:30-35 | identifier `x:2001` at `db8::1` and `x` at `2001:db8::1` share a key, and all callers of this form |
| `MfaRateLimiter.IdentifierExact` | src/common/guards/mfa-rate-limiter.guard.ts:33-35 | the challenge identifies before the email, and without both `unknown` does |
| `MfaRateLimiter.AddressExact` | src/common/guards/mfa-rate-limiter.guard.ts:30-32 | the address of the connection comes before the first forwarding host, and without both `unknown` |
| `MfaRateLimiter.EventUsesUp` | src/common/guards/mfa-rate-limiter.guard.ts:42-115 | an attempt, a reset or a failure within the interval admits no more than it uses up |
| `MfaRateLimiter.EventBound` | src/common/guards/mfa-rate-limiter.guard.ts:28-115 | on every run with resets and database failures an interval one window long admits at most the limit, max(1, M - 1) for each reset in it and one for each failure in it |
| `PayoutsCsv.DirtyFieldIsLost` | src/modules/admin/admin-payouts.service.ts:1053-1073 | a raw text with a comma, quote or line end is never read back as itself |
| `PayoutsCsv.ReadFrom` | src/modules/admin/admin-payouts.service.ts:1053-1075 | any rows of raw and quoted fields read back as their texts if and only if the raw ones are plain |
| `PayoutsCsv.ExportReadsBack` | src/modules/admin/admin-payouts.service.ts:1028-1076 | by section 2 of RFC 4180 the export reads back as the header and the original columns if and only if the unquoted columns are free of comma, quote, CR and LF |
| `PayoutsCsv.ColumnsMatchHeadings` | src/modules/admin/admin-payouts.service.ts:1029-1073 | every column of a payout stands under its heading |
| `PayoutsCsv.CellsReadBack` | src/modules/admin/admin-payouts.service.ts:1028-1076 | with plain raw columns the cell read for a payout under a heading is the field of that heading |
| `AdminLedger.NetPlusReversed` | src/common/utils/commission.utils.ts:33-51 | net plus reversed is at least gross, and equal if and only if nothing is reversed beyond its amount |
| `AdminLedger.StepSettles` | src/modules/admin/admin.service.ts:1836-1888 | every step but recalculation keeps refunded and charged-back commissions reversed in full and none beyond |
| `AdminLedger.StepKeepsGross` | src/modules/admin/admin.service.ts:1836-2007 | every step but recalculation keeps the gross total |
| `AdminLedger.MoneyIsConserved` | src/modules/admin/admin.service.ts:1836-2007 | over every run without recalculation those commissions net nothing and net plus reversed is the gross of the start |
| `AdminLedger.StepSettlesExactly` | src/modules/admin/admin.service.ts:2088-2114 | a step keeps all commissions settled if and only if it is not a recalculation whose new amount is below what is reversed or differs from the old amount of a refunded commission |
| `AdminLedger.RecalculationUnsettles` | src/modules/admin/admin.service.ts:2088-2114 | two such recalculations: a lower rate for a partly reversed commission, a higher one for a refunded one |
| `AdminLedger.MoneyWithRecalculation` | src/modules/admin/admin.service.ts:1836-2161 | over every run whose recalculations meet this, refunded commissions net nothing and net plus reversed is gross |
| `AdminLedger.CoversPercentage` | src/modules/admin/admin.service.ts:2088-2098 | where the new amount is the rounded product of base and rate, the terms cover if and only if ten thousand times what is reversed is at most the product plus 5000, and for a refunded commission the product rounds to the old amount |
| `AdminLedger.PercentageRule` | src/modules/admin/admin.service.ts:2092-2095 | a percentage rule gives its rate and the rounded product of base and rate |
| `AdminLedger.MoneyWhenUpToDate` | src/modules/admin/admin.service.ts:1836-2161 | if at the start every commission is settled and has the amount a recalculation would give, every run with recalculations anywhere keeps the gross total and net plus reversed equal to it |
| `Rounding.RoundingError` | src/modules/admin/admin.service.ts:2095-2095 | rounding is off by at most half a minor unit and never exceeds the base for rates up to 10000 |
| `Rounding.RoundingDrift` | src/modules/admin/admin.service.ts:2092-2106 | n commissions at one rate drift by at most n/2 units |
| `AdminLedger.RecalculationIsStable` | src/modules/admin/admin.service.ts:2084-2114 | a second recalculation changes nothing but the version |
| `AdminLedger.NextOfNumbered` | src/modules/admin/admin.service.ts:2113-2114 | `vN` becomes `v(N+1)`, `v0` becomes `v2` |
| `AdminLedger.VersionsCount` | src/modules/admin/admin.service.ts:2113-2114 | k recalculations take `vN` to `v(N+k)` for N >= 1 |
| `AdminLedger.StepKeepsPayouts` | src/modules/admin/admin-payouts.service.ts:895-1010 | no step changes batches, item amounts or which items are COMPLETED |
| `AdminLedger.PayoutsAreConserved` | src/modules/admin/admin-payouts.service.ts:895-1010 | over every run batch sums, completed items and their total stay as they are |
| `AdminLedger.CancelFreesItsCommissions` | src/modules/admin/admin-payouts.service.ts:990-1010 | a cancellation raises the eligible amount by exactly the approved commissions of the item not eligible before and touches no other commission |
| `AdminLedger.LinksOnlyGo` | src/modules/admin/admin-payouts.service.ts:1003-1009 | no run links a commission to an item |
| `AdminLedger.CancelledStaysUnlinked` | src/modules/admin/admin-payouts.service.ts:990-1010 | after a cancellation no commission is ever linked to the item again |
| `AdminLedger.BulkConversionsIsARun` | src/modules/admin/admin.service.ts:1933-1959 | a bulk conversion update is the run of its single updates |
| `AdminLedger.BulkCommissionsIsARun` | src/modules/admin/admin.service.ts:2046-2072 | a bulk commission update is the run of its single updates |
| `LedgerEffects.ConversionIsFollowed` | src/modules/admin/admin.service.ts:1821-1892 | refund and chargeback leave every commission of the conversion with that status and net 0 and lower the net total by what they netted; a rejection takes them out of the eligible amount, an approval puts in those that are payable; other statuses and other conversions change no commission |
| `LedgerEffects.CommissionIsRestated` | src/modules/admin/admin.service.ts:1974-2010 | status, reversed amount and payout status after an update, eligible exactly when approved, and the change of both totals; no other commission changes |
| `LedgerEffects.ReverseIsRefund` | src/modules/admin/admin.service.ts:2144-2161 | reversing a commission is updating it to REFUNDED |
| `LedgerEffects.PendingUndoes` | src/modules/admin/admin.service.ts:1999-2005 | going back to PENDING undoes any earlier status update |
| `LedgerEffects.RecalculationExact` | src/modules/admin/admin.service.ts:2084-2114 | it starts from the amount of the conversion, if there is one, and applies the rule, or else the program with 1000 for a rate of none; a percentage is the rounded share of that amount, half a unit up; everything else stays |
| `LedgerEffects.NextOfUnnumbered` | src/modules/admin/admin.service.ts:2113-2114 | a version without a number above 0 becomes `v2` |
| `LedgerEffects.DigitsOfJoin` | src/modules/admin/admin.service.ts:2113-2113 | the digits of a version are those of its parts |
| `LedgerEffects.BulkConversionsReports` | src/modules/admin/admin.service.ts:1933-1959 | the ids reported are exactly those that could be changed at the start, in order |
| `LedgerEffects.BulkCommissionsReports` | src/modules/admin/admin.service.ts:2046-2072 | the ids reported are exactly those that exist, in order |
| `LedgerEffects.ItemMoves` | src/modules/admin/admin-payouts.service.ts:895-1010 | an item goes to SCHEDULED, HELD, PROCESSING or CANCELLED exactly when the step names it and it is not COMPLETED, for a retry only from FAILED or HELD; only a retry counts one more |
| `LedgerEffects.ItemIsReconciled` | src/modules/admin/admin-payouts.service.ts:741-750 | only a resolution changes the reconciliation status, of the item it names |
| `LedgerEffects.CancelExact` | src/modules/admin/admin-payouts.service.ts:1002-1009 | a cancellation makes the commissions of the item eligible and removes their link, and leaves the others |
| `PlatformBatches.AddBatchBalances` | src/modules/admin/admin-payouts.service.ts:133-200 | a created batch totals its items and leaves other batch sums alone |
| `PlatformBatches.EnsureServesAll` | src/modules/admin/admin-payouts.service.ts:118-338 | afterwards no organization needs batches |
| `PlatformBatches.EnsureExact` | src/modules/admin/admin-payouts.service.ts:118-131 | organizations that are not deleted, have an affiliate and fewer than two batches get three batches, all others none |
| `PlatformBatches.CreatedTotals` | src/modules/admin/admin-payouts.service.ts:132-338 | totals, statuses and owner of the three batches |
| `PlatformBatches.CreatedItems` | src/modules/admin/admin-payouts.service.ts:132-338 | nine items of the organization, of which 1485000 are paid |
| `PlatformBatches.EnsureIsIdempotent` | src/modules/admin/admin-payouts.service.ts:118-338 | a second call changes nothing; what was there stays and every created batch totals its items |
| `PlatformBatches.CreatedBatchesStayBalanced` | src/modules/admin/admin-payouts.service.ts:118-338 | and still does after every run of the administration |
| `PlatformBatches.PlatformStaysBalanced` | src/modules/admin/admin-payouts.service.ts:118-341 | in every run in which batches are ensured in between, batches that totalled their items and those created since still do |
| `AdminServices.AdminService.UpdateConversionStatus` | src/modules/admin/admin.service.ts:1808-1898 | new state and outcome: the conversion and, in the loop, its commissions, as `LedgerEffects.ConversionIsFollowed` says |
| `AdminServices.AdminService.UpdateCommissionStatus` | src/modules/admin/admin.service.ts:1961-2010 | new state and outcome: the commission in each of the status branches |
| `AdminServices.AdminService.ReverseOne` | src/modules/admin/admin.service.ts:2144-2161 | new state and outcome: the reversed commission |
| `AdminServices.AdminService.RecalculateOne` | src/modules/admin/admin.service.ts:2074-2115 | new state and outcome: rate, amount and version from rule or program |
| `AdminServices.AdminService.Approve` | src/modules/admin/admin-payouts.service.ts:895-905 | new state and outcome: the item becomes SCHEDULED unless COMPLETED |
| `AdminServices.AdminService.Hold` | src/modules/admin/admin-payouts.service.ts:922-933 | new state and outcome: the item becomes HELD unless COMPLETED |
| `AdminServices.AdminService.Retry` | src/modules/admin/admin-payouts.service.ts:951-966 | new state and outcome: a FAILED or HELD item is PROCESSING with one more retry |
| `AdminServices.AdminService.Cancel` | src/modules/admin/admin-payouts.service.ts:990-1010 | new state and outcome: the item is CANCELLED and its commissions are freed in the loop |
| `AdminServices.AdminService.Resolve` | src/modules/admin/admin-payouts.service.ts:741-750 | new state and outcome: the reconciliation status |
| `AdminServices.AdminService.PushBatch` | src/modules/admin/admin-payouts.service.ts:132-200 | new state and outcome: items with a running total, then the batch |
| `AdminServices.AdminService.EnsurePayouts` | src/modules/admin/admin-payouts.service.ts:118-338 | new state and outcome: batches for every organization that lacks them |
| `AdminServices.AdminService.BulkUpdateConversionStatus` | src/modules/admin/admin.service.ts:1933-1959 | new state and outcome: failed ids are skipped, the others listed in order |
| `AdminServices.AdminService.BulkUpdateCommissionStatus` | src/modules/admin/admin.service.ts:2046-2072 | new state and outcome: failed ids are skipped, the others listed in order |
| `Grouping.GroupBy` | src/modules/admin/admin.service.ts:1425-1433 | every key maps to the items a filter by it gives, in their order, and only keys in use are set |
| `RouteNormalizer.ReplaceUuidsExact` | src/modules/api-activity/api-telemetry.interceptor.ts:67-70 | the first replacement leaves no UUID if and only if no matched UUID is followed by the last 35 characters of another |
| `RouteNormalizer.NoNumberLeft` | src/modules/api-activity/api-telemetry.interceptor.ts:72-72 | no slash-preceded numeric segment is left |
| `RouteNormalizer.UuidsUnaffected` | src/modules/api-activity/api-telemetry.interceptor.ts:72-72 | the second replacement neither makes nor removes a UUID |
| `RouteNormalizer.NoNumberMade` | src/modules/api-activity/api-telemetry.interceptor.ts:67-70 | the first replacement makes no numeric segment |
| `RouteNormalizer.ResultExact` | src/modules/api-activity/api-telemetry.interceptor.ts:64-74 | the result is not empty and has no query and no numeric segment; it has a UUID exactly in the case above |
| `RouteNormalizer.FixedPoints` | src/modules/api-activity/api-telemetry.interceptor.ts:64-74 | the texts left alone are those without UUID |
| `RouteNormalizer.IdempotentExact` | src/modules/api-activity/api-telemetry.interceptor.ts:64-74 | normalising twice is normalising once if and only if no matched UUID is followed by the last 35 characters of another |
| `RouteNormalizer.NotIdempotent` | src/modules/api-activity/api-telemetry.interceptor.ts:64-74 | a URL for which it is not |
| `RouteNormalizer.QueryIsIgnored` | src/modules/api-activity/api-telemetry.interceptor.ts:65-65 | URLs that differ only in the query normalise alike |
| `RouteNormalizer.MaskedBySegment` | src/modules/api-activity/api-telemetry.interceptor.ts:66-72 | a path is replaced segment by segment |
| `RouteNormalizer.NumberSlotIsFree` | src/modules/api-activity/api-telemetry.interceptor.ts:72-72 | a numeric segment becomes `/:id` wherever it stands and does not influence the rest |
| `RouteNormalizer.SlotIsReplaced` | src/modules/api-activity/api-telemetry.interceptor.ts:67-70 | a UUID becomes `:id` after any text whose scan does not end within 28 to 35 characters of a UUID |
| `RouteNormalizer.SlotExact` | src/modules/api-activity/api-telemetry.interceptor.ts:64-74 | URLs that differ only in which UUID fills a slot normalise alike if and only if the text before the slot does not end so, or the slot is in the query |
| `RouteNormalizer.SlotMatters` | src/modules/api-activity/api-telemetry.interceptor.ts:64-74 | such a text: the first 28 characters of a UUID |
| `ApiTelemetry.CountedExact` | src/modules/api-activity/api-telemetry.interceptor.ts:184-188 | a call is counted exactly when its status is 400 or more; it has a fingerprint also when a code was thrown below that |
| `ApiTelemetry.ContentExact` | src/modules/api-activity/api-telemetry.interceptor.ts:86-89 | the text that is hashed tells services and methods apart, but route and code only together |
| `ApiTelemetry.ContentWithPlainCodes` | src/modules/api-activity/api-telemetry.interceptor.ts:86-89 | as long as codes have no colon all four parts are told apart |
| `ApiTelemetry.CodesCollideExact` | src/modules/api-activity/api-telemetry.interceptor.ts:86-89 | two codes can make different pairs of route and code agree if and only if one of them ends with a colon and the other |
| `ApiTelemetry.FingerprintsCollide` | src/modules/api-activity/api-telemetry.interceptor.ts:184-188 | otherwise not: for every digest two failures with different routes and codes share a fingerprint |
| `ApiTelemetry.LookupAfterUpdate` | src/modules/api-activity/api-telemetry.interceptor.ts:249-272 | one call changes or opens the group of its fingerprint and no other |
| `ApiTelemetry.IndexIsSummary` | src/modules/api-activity/api-telemetry.interceptor.ts:243-273 | in every run the group of a fingerprint is the log grouped by it: count, sample and time of the latest failure, description of the first |
| `ApiTelemetry.OneGroupEach` | src/modules/api-activity/api-telemetry.interceptor.ts:249-272 | at most one group for a fingerprint in every run |
| `ApiTelemetry.EveryFailureIsCounted` | src/modules/api-activity/api-telemetry.interceptor.ts:249-272 | the counts add up to the number of failures in the log |
| `ApiTelemetry.QuotaAfterUpdate` | src/modules/api-activity/api-telemetry.interceptor.ts:276-284 | one refused call changes only the first quota of its entity |
| `ApiTelemetry.QuotaIsSummary` | src/modules/api-activity/api-telemetry.interceptor.ts:276-284 | in every run the first quota of an entity counts the calls refused to it; other quotas stay |
| `TelemetryEntry.EntryLogs` | src/modules/api-activity/api-telemetry.interceptor.ts:143-241 | a thrown status is logged before a thrown status code, that before the status of the response and that before 200; the result by ranges of the status, the service by the first part that occurs in the URL, the code thrown or made of a failing status, and the fingerprint of service, method, route and code |
| `TelemetryEntry.CallCounts` | src/modules/api-activity/api-telemetry.interceptor.ts:248-284 | a call raises the total of the group counts by one exactly when its logged status is 400 or more, and the violations of the first quota of its organization, or else address, exactly when it is 429 |
| `TelemetryEntry.FirstFailure` | src/modules/api-activity/api-telemetry.interceptor.ts:249-272 | the first failure of a fingerprint opens a group that describes it |
| `ApiTelemetryService.Telemetry.RecordTelemetry` | src/modules/api-activity/api-telemetry.interceptor.ts:132-284 | the entry logged for a call by its fields, what it adds to group counts and quotas, and that these stay those the log leads to |
| `ApiTelemetryService.Telemetry.CountFailure` | src/modules/api-activity/api-telemetry.interceptor.ts:250-272 | the found group is changed in place or a new one pushed |
| `ApiTelemetryService.Telemetry.CountRefusal` | src/modules/api-activity/api-telemetry.interceptor.ts:277-283 | the found quota is changed in place |
| `RevenueSeries.BucketsAreAdjacent` | src/modules/analytics/analytics.service.ts:403-563 | every point ends where the next begins, also the points compared with, and none is empty |
| `RevenueSeries.PreviousSpanExact` | src/modules/analytics/analytics.service.ts:403-553 | the last point holds today; the compared span ends where the span begins for 7d, 30d and 90d, and for N months if and only if N is 12 |
| `RevenueSeries.RangeOfNumberExact` | src/modules/analytics/analytics.service.ts:383-386 | a plain number asks for that many months, or for 30 days if it is 0 or 1 |
| `RevenueSeries.RequestedSpanExact` | src/modules/analytics/analytics.service.ts:400-553 | the dates covered by every requested range, and that the compared span is the one before it if and only if the range is 7d, 30d or 90d or the months are twelve |
| `RevenueSeries.RequestedSeriesAddsUp` | src/modules/analytics/analytics.service.ts:400-583 | the points of every request add up to its whole span |
| `RevenueSeries.RowsSplit` | src/modules/analytics/analytics.service.ts:415-426 | revenue and count of an interval are those of its two parts |
| `RevenueSeries.BetweenExact` | src/modules/analytics/analytics.service.ts:413-431 | an interval holds the rows counted at a time from its start to before its end, each as often as given |
| `RevenueSeries.ApprovedExact` | src/modules/analytics/analytics.service.ts:417-421 | and of these the approved ones count |
| `RevenueSeries.ConversionAdds` | src/modules/analytics/analytics.service.ts:413-441 | one more conversion adds its amount, if approved, to the revenue and one to the count of the interval it is in, current or compared |
| `RevenueSeries.CommissionAdds` | src/modules/analytics/analytics.service.ts:418-439 | one more commission adds its amount, if approved, to the commission of that interval |
| `RevenueSeries.PointLengths` | src/modules/analytics/analytics.service.ts:406-560 | a point is one day, seven days or one month, and compared with as much |
| `RevenueSeries.SeriesAddsUp` | src/modules/analytics/analytics.service.ts:403-583 | all six figures of the points add up to those of the whole span |
| `RevenueSeries.OneBucketEach` | src/modules/analytics/analytics.service.ts:403-583 | a time in the span is in exactly one bucket, any other in none |
| `RevenueSeries.HasDataExact` | src/modules/analytics/analytics.service.ts:444-447 | without negative amounts there is data if and only if a conversion is in the span or revenue in the compared one |
| `TopPerformers.TopPrograms` | src/modules/analytics/analytics.service.ts:595-637 | the programs of the filter-and-sum table with the highest revenue, and the total revenue |
| `TopPerformers.AccumulateConversions` | src/modules/analytics/analytics.service.ts:611-617 | the Map loop gives every program the revenue and count of its own conversions, in the order of first occurrence |
| `TopPerformers.AccumulateCommissions` | src/modules/analytics/analytics.service.ts:618-623 | and then its own commissions; programs without conversions get none |
| `TopPerformers.OfExact` | src/modules/analytics/analytics.service.ts:611-623 | the rows of an entry are all rows with its id |
| `TopPerformers.IdsInOrder` | src/modules/analytics/analytics.service.ts:611-617 | entries stand in the order of their first rows |
| `TopPerformers.MapComesToTotal` | src/modules/analytics/analytics.service.ts:609-617 | the entries add up to the total revenue and to all conversions |
| `TopPerformers.SortSorts` | src/modules/analytics/analytics.service.ts:625-626 | sorting orders by revenue and keeps every entry |
| `TopPerformers.SortIsStable` | src/modules/analytics/analytics.service.ts:625-626 | entries of equal revenue keep their order |
| `TopPerformers.TopIsTop` | src/modules/analytics/analytics.service.ts:625-627 | entries are kept or dropped, and nothing dropped has more revenue than anything kept |
| `TopAffiliates.CountConversions` | src/modules/analytics/analytics.service.ts:241-253 | revenue and count of every affiliate, rows without affiliate skipped |
| `TopAffiliates.SumCommissions` | src/modules/analytics/analytics.service.ts:255-262 | net commission of every affiliate |
| `TopAffiliates.NamedExact` | src/modules/analytics/analytics.service.ts:241-262 | the rows that count are those with an affiliate |
| `TopAffiliates.BareSort` | src/modules/analytics/analytics.service.ts:264-266 | the selection depends on nothing but revenue |
| `TopAffiliates.AffiliateMetrics` | src/modules/analytics/analytics.service.ts:241-276 | three Maps joined after the selection give the ten best of one filter-and-sum table |

## Left out

- Controllers, modules, guards for roles, keys and subscriptions, the super-admin checks, audit logs and responses: plumbing around the modelled steps.
- TypeORM details of the store: natural-key tables, `initialize`, `reset`, assignment of `id`, duplicate or empty ids, memory-only mode, failed writes.
- A write of the store carries the fields at the time of issue; a row read later by the driver is not modelled.
- Overlapping requests of the limiter for one key, and a maximum that is not a number.
- The otpauth URI, recovery codes and `sanitizeForLogging`.
- The limit of 10^8 days of a Date, beyond which formatting throws.
- Floating point: version numbers and amounts beyond 2^53; rates are integers in basis points.
- `listPayouts` filters and pages; the export starts from the listed payouts with their numbers already as text.
- AdminServices.AdminService.UpdateConversionStatus: does not model refund amounts and history, approval marks, notes, validators and dates, which no modelled step reads.
- AdminServices.AdminService.UpdateCommissionStatus: does not model approval marks, dispute reasons and dates, which no modelled step reads.
- AdminServices.AdminService.ReverseOne: does not model the dispute reason.
- AdminServices.AdminService.Hold: does not model the failure reason.
- AdminServices.AdminService.Retry: does not model the idempotency key, the failure reason and the time of the retry.
- AdminServices.AdminService.Cancel: does not model the failure reason.
- AdminServices.AdminService.Resolve: does not model the time of the resolution.
- AdminServices.AdminService.PushBatch: does not model affiliates, gateways, accounts and dates of items and batches; each batch is one loop over its items, where the source writes the third one out.
- AdminServices.AdminService.EnsurePayouts: does not model affiliates, gateways, accounts and dates of items and batches.
- ApiTelemetryService.Telemetry.RecordTelemetry: does not model sizes, headers, query, actor and random figures of the log entry, where its organization, address and URL come from, the case folding of its method, and failures swallowed by the catch block.
- TopPerformers.TopPrograms: does not model the scoping to an organization, an environment and requested ids, program names and the formatted share.
- TopAffiliates.AffiliateMetrics: does not model the scoping and the display names.
- Surrogate pairs: texts are sequences of characters.
- Scoping of analytics to organization, environment, program and affiliate, labels, `toFixed` percentages, growth trends and the other dashboards: filters before and formatting after what is modelled.
- `Date` constructors of local time with years 0 to 99 are not modelled in the series.
- `sort` and `splice` of the runtime are modelled by their specification, not by the code of an engine.
- The administration services keep entities as values in sequences; entities shared by reference appear only in `DbBackedArray.dfy` and `ApiTelemetryService.dfy`.
