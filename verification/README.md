# DayLawyer booking core in Dafny

DayLawyer is a single-page web application for a law firm. Members subscribe to a plan. Each
plan gives them consultation credit, counted in whole hours. Members book one-hour
consultations on working days between 09:00 and 18:00 Korean time. An administrator confirms,
cancels, completes or deletes the requests. This project models the application's booking
core and proves properties of the model:

- **Availability.** `within`, `isWeekend`, `isHoliday`, the busy list and `genSlots` are
  pure functions (modules `Calendar`, `Availability`, `Bookings`). The holiday fallback of
  `useKRHolidays` is modelled too.
- **Credits.** The credit store behind `getCredits`, `setCredits` and `addCredits` is a class
  `Credits.CreditAccount`. It holds a map from e-mail address to hours, and every write stores
  `max(0, round(hours))`.
- **Booking ledger.** The member's `submit` and the administrator's `setStatus` and `del` are
  methods of `Ledger.BookingLedger`. This class holds the request list, the block list and the
  credit account that completion debits. Pure functions (`Bookings.WithStatus`,
  `Bookings.BlocksAfterStatus`, `Ledger.CreditsAfterStatus`, …) specify each new state, and
  lemmas state what the updates do and do not change.
- **Accounts.** Phone normalisation and the sign-up and sign-in checks are pure functions. The
  member list that sign-up appends to is a class, `Accounts.Directory`.
- **Exports.** The monthly and quarterly exports count completed requests per period in a
  loop (`Reports.CountCompleted`). The CSV field escaping is modelled as written and as
  evidently intended, against a reader for the RFC 4180 record format (module `Csv`).
- **Scenarios.** Concrete dates run through the model: 2025-01-01, a holiday, and Tuesday
  2025-06-10 (module `Scenarios`).

Time is integer. An instant is a number of seconds of Korean wall-clock time since
1970-01-01 00:00. The application converts every date through a Korean-locale string, which
keeps whole seconds only. A date is a day number, and day 0 is Thursday 1970-01-01. The
weekday is `(day + 4) % 7`, so 0 is Sunday, as in JavaScript's `getDay`. `setHour(d, h)` is
`d * 86400 + h * 3600`. Because instants are whole seconds, the lead-time test
`hoursDiff(start, now) >= 1` is exactly `start - now >= 3600`. The `'YYYY-MM-DD'` key of a
date is the value `Ymd(year, month, day)`, computed from the day number with H. Hinnant's
days-to-civil algorithm.

Where the code does something other than what a reader of the application might expect,
the model follows the code:

- `submit` checks only that a slot was chosen. It does not re-check that the slot is still
  available.
- Plan activation adds the plan's hours to the balance rather than setting the balance to
  them.
- Confirming a request twice appends a second block with the same id. The code does not
  ensure at most one block per request.
- Completing a confirmed request keeps its block. The block list is therefore not "exactly
  the confirmed requests".
- Requests in 확정취소 (confirmation cancelled) and 완료 (completed) still count as busy. Only
  취소 (cancelled) is excluded.
- Any status may follow any other. The code has no transition table.
- After a failed holiday fetch the list already held is kept whenever it is non-empty, even
  when it was fetched for another year.

## Model

| member | source | states |
|---|---|---|
| Calendar.DayOf | components/DayLawyerApp.tsx:25 | the day number of an instant is the day whose 86400 seconds contain it |
| Calendar.Weekday | components/DayLawyerApp.tsx:52 | the weekday is always in 0..6, with 0 for Sunday |
| Calendar.SetHour | components/DayLawyerApp.tsx:27 | the instant at hour 0..23 of a day falls on that same day |
| Calendar.CivilFromDays | components/DayLawyerApp.tsx:25 | the civil date of every day number has a month in 1..12 and a day in 1..31 |
| Calendar.CivilRoundTrip | components/DayLawyerApp.tsx:25 | counting the days of a day number's civil date with the independent days-from-civil algorithm gives the day number back |
| Calendar.CivilFromDaysInjective | components/DayLawyerApp.tsx:25 | two different days never get the same 'YYYY-MM-DD' key |
| Calendar.IsWeekend | components/DayLawyerApp.tsx:52 | a day is Saturday or Sunday exactly when its day number is 2 or 3 modulo 7, as 1970-01-03 was a Saturday |
| Calendar.IsHoliday | components/DayLawyerApp.tsx:53 | a day is a holiday exactly when some listed entry is a well-formed date whose day number is that day |
| Calendar.HolidaysAfterFetch | components/DayLawyerApp.tsx:55-63 | a successful fetch gives the fetched list; after a failure the list held is kept when non-empty, else the list is just 1 January of the year; after a failure the list is never empty |
| Availability.Within | components/DayLawyerApp.tsx:30 | `max(s1, s2) < min(e1, e2)` holds exactly when both intervals are non-empty and each starts before the other ends |
| Availability.GenSlots | components/DayLawyerApp.tsx:374-378 | at most nine slots; none on an excluded day; every slot is a candidate of the day, overlaps no busy interval and meets the lead time (GenSlotsMembership gives the converse) |
| Availability.TouchingIntervalsDoNotOverlap | components/DayLawyerApp.tsx:30 | the max/min overlap test is symmetric, is the same as `a.start < b.end && b.start < a.end`, and an interval ending where another starts does not overlap it |
| Availability.ExcludedDay | components/DayLawyerApp.tsx:375 | a day is excluded exactly when its day number is 2 or 3 modulo 7 (a weekend day) or some listed entry is a well-formed date whose day number it is (ExcludedDayHasNoSlots gives its effect) |
| Availability.Candidates | components/DayLawyerApp.tsx:376 | nine candidates, the k-th running from 9+k o'clock to 10+k o'clock of the day (CandidatesDisjoint and GenSlotsShape give their disjointness and order) |
| Availability.LeadTimeOk | components/DayLawyerApp.tsx:378 | the test holds exactly when the real-valued hour difference `hoursDiff(start, now)` is at least 1 (LeadTimeBoundary pins the boundary) |
| Availability.ExcludedDayHasNoSlots | components/DayLawyerApp.tsx:374-375 | a Saturday, a Sunday or a date on the holiday list has no slots, whatever the busy list and the time |
| Availability.GenSlotsMembership | components/DayLawyerApp.tsx:374-378 | a slot is offered if and only if the day is not excluded, the slot is one of the nine candidates, it overlaps no busy interval and it starts at least an hour after now |
| Availability.GenSlotsAreFree | components/DayLawyerApp.tsx:377-378 | no offered slot overlaps a busy interval, and every offered slot starts at least an hour after now |
| Availability.GenSlotsShape | components/DayLawyerApp.tsx:376-378 | the result is an order-preserving subsequence of the candidates: at most nine slots, strictly ascending, each exactly one hour and on the hour |
| Availability.AllNineWhenFree | components/DayLawyerApp.tsx:376-378 | on a working day with nothing busy and now at or before 08:00, all nine candidates are offered, in order |
| Availability.LeadTimeBoundary | components/DayLawyerApp.tsx:378 | a slot starting exactly 60 minutes after now is offered; one second later it is not |
| Availability.CandidatesDisjoint | components/DayLawyerApp.tsx:376 | two different candidates of a day never overlap |
| Availability.OneBusyHourRemovesOneSlot | components/DayLawyerApp.tsx:376-377 | a busy interval equal to candidate k removes exactly that candidate; its touching neighbours stay, so 8 slots remain |
| Bookings.BlockId | components/DayLawyerApp.tsx:484 | a block id is 'blk_' followed by the request id |
| Bookings.BlockIdInjective | components/DayLawyerApp.tsx:484 | two requests have the same block id exactly when they have the same id |
| Bookings.ConfirmationBlock | components/DayLawyerApp.tsx:484 | the confirmation block carries the block id and the request's start and end |
| Bookings.Busy | components/DayLawyerApp.tsx:372 | the busy list has one interval per block, first and in block order, then one per occupying request (BusyMembership characterises its members) |
| Bookings.Occupies | components/DayLawyerApp.tsx:372 | a request occupies the calendar exactly when it is not 취소 and is not a 텍스트 consultation (BusyMembership gives its effect on the busy list) |
| Bookings.BusyMembership | components/DayLawyerApp.tsx:372 | the busy list holds exactly the block intervals and the intervals of requests that are not 취소 and are 대면 or 전화 |
| Bookings.BusyAfterPrepend | components/DayLawyerApp.tsx:372 | prepending a request adds its interval to the busy list exactly when it occupies the calendar; a 텍스트 request never changes the busy list |
| Bookings.FindRequest | components/DayLawyerApp.tsx:481 | returns the first request with the id, and none exactly when no request has it |
| Bookings.WithStatus | components/DayLawyerApp.tsx:480 | the list keeps its length and every request's id and interval; a request ends with the new status exactly when its id matches or it already had that status |
| Bookings.WithStatusChangesOnlyStatus | components/DayLawyerApp.tsx:480 | a status change sets the status of the requests with that id and changes nothing else in any request or position |
| Bookings.UnknownIdChangesNothing | components/DayLawyerApp.tsx:480-482 | for an id not in the ledger, neither the requests nor the blocks change |
| Bookings.ConfirmAppendsOneBlock | components/DayLawyerApp.tsx:483-484 | 확정 appends exactly one block, after the existing ones, with id 'blk_'+id and the request's interval |
| Bookings.ConfirmTwiceDuplicates | components/DayLawyerApp.tsx:484 | confirming the same request twice leaves two blocks with its id |
| Bookings.FindAfterWithStatus | components/DayLawyerApp.tsx:480-481 | after a status change the same request is found, with the new status |
| Bookings.WithoutBlocksOf | components/DayLawyerApp.tsx:487 | exactly the blocks without block id 'blk_'+id remain, as many as there were |
| Bookings.BlocksAfterStatus | components/DayLawyerApp.tsx:481-489 | a status change adds at most one block, and only the confirmation block of a known request; blocks of other requests are always kept |
| Bookings.UnconfirmRemovesExactlyItsBlocks | components/DayLawyerApp.tsx:486-487 | 확정취소, 취소 and 접수 remove every block with id 'blk_'+id and keep every other block, in order |
| Bookings.CompletionKeepsBlocks | components/DayLawyerApp.tsx:488-489 | 완료 leaves the block list unchanged |
| Bookings.BlockedIntervalNotOffered | components/DayLawyerApp.tsx:372-378 | no slot that overlaps a block's interval is offered on any day |
| Credits.Round | components/DayLawyerApp.tsx:122 | rounding gives the integer within one half of the value, with halves rounded up |
| Credits.Stored | components/DayLawyerApp.tsx:122 | the stored value is never negative; it is 0 exactly for values below one half, otherwise the rounded value |
| Credits.BalanceIn | components/DayLawyerApp.tsx:121 | a balance is never negative; it is 0 for a missing or empty address and for an address with no entry, and the stored value otherwise |
| Credits.AfterSet | components/DayLawyerApp.tsx:122 | a write adds the address to the map, keeps every other entry and keeps all balances non-negative |
| Credits.AfterAdd | components/DayLawyerApp.tsx:123 | an addition keeps all balances non-negative |
| Credits.RoundShift | components/DayLawyerApp.tsx:122-123 | rounding commutes with adding a whole number of hours |
| Credits.SetThenRead | components/DayLawyerApp.tsx:121-122 | after a write the address reads back max(0, round(hours)), and every other address reads as before |
| Credits.AddThenRead | components/DayLawyerApp.tsx:121-123 | after adding d the address reads max(0, old + round(d)), and every other address reads as before; an addition to the empty address stores max(0, round(d)) |
| Credits.DebitOneHour | components/DayLawyerApp.tsx:123 | a debit of one hour takes a positive balance down by one and leaves a zero balance at zero |
| Credits.PlanHours | components/DayLawyerApp.tsx:117 | a plan never grants negative hours, and it grants hours exactly when it is basic, pro or elite |
| Credits.ActivationAdds | components/DayLawyerApp.tsx:579 | activating a plan adds its hours to the balance |
| Credits.CreditAccount.Balance | components/DayLawyerApp.tsx:121 | the balance read is never negative |
| Credits.CreditAccount.SetCredits | components/DayLawyerApp.tsx:122 | the map becomes the map after the write, and all balances stay non-negative |
| Credits.CreditAccount.AddCredits | components/DayLawyerApp.tsx:123 | the map becomes the map after writing the read balance plus delta |
| Credits.CreditAccount.ActivatePlan | components/DayLawyerApp.tsx:579 | the plan's hours are added to the member's balance |
| Credits.CreditAccount.TopUp | components/DayLawyerApp.tsx:586 | the purchased hours are added for a non-empty address; an empty address changes nothing |
| Accounts.NormalizePhone | components/DayLawyerApp.tsx:33 | the result holds only digits, in their original order, and keeps every digit of the input, as many times as it occurs |
| Accounts.NormalizePhoneIdempotent | components/DayLawyerApp.tsx:33 | normalising twice equals normalising once, and a string of digits is left as it is |
| Accounts.JsSpaceClass | components/DayLawyerApp.tsx:102 | the class `\s` holds space, tab, line feed and carriage return, and holds no digit, ASCII letter, '@' or '.' |
| Accounts.MatchesEmailPattern | components/DayLawyerApp.tsx:102 | a matching address has at least five characters and holds an '@' and a '.' (EmailPatternShape and EmailPatternExamples characterise it further) |
| Accounts.MobileNumberShape | components/DayLawyerApp.tsx:103 | a normalised number passes exactly when it is 11 characters long and begins with '0', '1', '0' |
| Accounts.EmailPatternShape | components/DayLawyerApp.tsx:102 | an address that matches the pattern has exactly one '@', not at either end, and no white space |
| Accounts.EmailPatternExamples | components/DayLawyerApp.tsx:102 | "kim@wins.law" matches; "kim@wins" and "kim lee@wins.law" do not |
| Accounts.FindUser | components/DayLawyerApp.tsx:90 | returns the first member with the address, and none exactly when no member has it |
| Accounts.Utf16Length | components/DayLawyerApp.tsx:92 | JavaScript's string length lies between the number of characters and twice it, and equals it when no character is beyond U+FFFF |
| Accounts.AstralPasswordLength | components/DayLawyerApp.tsx:101 | a password of three emoji is three characters but six UTF-16 code units long |
| Accounts.RegisterCheck | components/DayLawyerApp.tsx:99-104 | sign-up passes if and only if every field is present, the password has 6 or more UTF-16 code units, the address matches, the normalised phone is 11 digits starting with 010 and no member has the address; otherwise the first failing check gives its error, in the order missing field, short password, malformed address, malformed phone, address taken |
| Accounts.LoginCheck | components/DayLawyerApp.tsx:91-93 | sign-in succeeds if and only if the input is well formed and the first member with the address has that password, and then returns that member; malformed input (an empty address or a password under 6 UTF-16 code units) is reported exactly when present, and any other failure is an unknown address or a wrong password |
| Accounts.FindUserAppendNew | components/DayLawyerApp.tsx:105-106 | a member appended with a new address is found by that address |
| Accounts.NewUser | components/DayLawyerApp.tsx:103-105 | the stored member has the id, name, address, password and remembered plan given, and the normalised phone number |
| Accounts.RegisterThenLogin | components/DayLawyerApp.tsx:99-107 | after a successful sign-up, addresses stay distinct, the stored phone is a normalised mobile number, and the new member can sign in with the address and password given |
| Accounts.Directory.Register | components/DayLawyerApp.tsx:99-107 | on a failed check the list is unchanged and the first failing check is returned; otherwise exactly the new member is appended; addresses stay distinct |
| Accounts.Directory.Login | components/DayLawyerApp.tsx:91-96 | the result is the sign-in check; on success the member becomes the session user, and the list is unchanged |
| Accounts.Directory.Logout | components/DayLawyerApp.tsx:97 | the session is cleared and the list is unchanged |
| Ledger.SubmitCheck | components/DayLawyerApp.tsx:386-389 | a submission passes if and only if a member is signed in, a plan is present, the balance is positive and a slot is chosen; each failing guard is reported when the ones before it pass, down to the missing slot |
| Ledger.NewRequest | components/DayLawyerApp.tsx:390 | the new request is 접수, with the slot's start and end |
| Ledger.CreditsAfterStatus | components/DayLawyerApp.tsx:488-489 | balances stay non-negative after a status change |
| Ledger.CompletionDebitsOneHour | components/DayLawyerApp.tsx:481-489 | 완료 of a known request debits its user one hour, floored at zero, and no one else; any other status or an unknown id leaves the credits untouched |
| Ledger.WithoutRequest | components/DayLawyerApp.tsx:492 | exactly the requests without the id remain, and the list shrinks by the number of requests with it |
| Ledger.DeleteRemovesExactly | components/DayLawyerApp.tsx:492 | deletion removes exactly the requests with the id and the blocks with its block id, and keeps the rest in order and in number |
| Ledger.ConfirmedRequestNotOffered | components/DayLawyerApp.tsx:479-484 | after 확정, no slot overlapping the request's interval is offered on any day, whatever the request's kind |
| Ledger.SubmissionOccupiesSlot | components/DayLawyerApp.tsx:372-391 | a submitted 대면 or 전화 request stops every slot overlapping it from being offered; a 텍스트 request changes no offered slot |
| Ledger.BookingLedger.Submit | components/DayLawyerApp.tsx:382-391 | a refused submission returns the first failing guard and changes nothing; an accepted one prepends exactly the new 접수 request; blocks and credits are never touched |
| Ledger.BookingLedger.SetStatus | components/DayLawyerApp.tsx:479-491 | the requests, blocks and credits become exactly their status-change functions of the old state |
| Ledger.BookingLedger.Delete | components/DayLawyerApp.tsx:492 | the request and its blocks are removed; credits are untouched |
| Reports.QuarterOf | components/DayLawyerApp.tsx:495 | the quarter is in 1..4 and contains the month |
| Reports.PeriodOf | components/DayLawyerApp.tsx:494-495 | a monthly key has a month in 1..12, and a quarterly key has a quarter in 1..4 |
| Reports.CompletedIn | components/DayLawyerApp.tsx:502-505 | a period's count never exceeds the number of requests (CountsAddUp and QuarterIsSumOfMonths relate the counts) |
| Reports.FirstSeen | components/DayLawyerApp.tsx:502-505 | there are no more periods than requests (FirstSeenIsExact characterises them) |
| Reports.FirstSeenIsExact | components/DayLawyerApp.tsx:502-511 | the periods are listed once each, and exactly the periods holding a completed request are listed |
| Reports.CountsAddUp | components/DayLawyerApp.tsx:502-511 | the per-period counts add up to the number of completed requests |
| Reports.QuarterIsSumOfMonths | components/DayLawyerApp.tsx:494-495 | a quarter's count is the sum of its three months' counts |
| Reports.CountCompleted | components/DayLawyerApp.tsx:502-511 | one row per period, in first-occurrence order, each with the number of completed requests that start in it |
| Csv.DoubleQuotes | components/DayLawyerApp.tsx:498 | doubling quotes keeps the same characters and never shortens the text |
| Csv.Esc | components/DayLawyerApp.tsx:498 | as written: a missing value is empty; a value with '"', ',', backslash or 'n' is quoted, with its quotes doubled; any other value is written as it is |
| Csv.EscIntended | components/DayLawyerApp.tsx:498 | corrected: a missing value is empty; a value with '"', ',' or a line break is quoted, with its quotes doubled; any other value is written as it is |
| Csv.EscIntendedReadsBack | components/DayLawyerApp.tsx:498 | a corrected field reads back as the value, whatever separator follows it |
| Csv.LineAsWritten | components/DayLawyerApp.tsx:499 | when no value needs quoting under either class, the line as written is the corrected line (LineBreakSplitsRecord shows where they part) |
| Csv.Line | components/DayLawyerApp.tsx:499 | a line of values that need no quoting is their text joined by ',' (LineReadsBack gives the round trip) |
| Csv.Document | components/DayLawyerApp.tsx:499 | the export begins with the header line, and is only that line when there are no rows (DocumentReadsBack gives the round trip) |
| Csv.LineReadsBack | components/DayLawyerApp.tsx:499 | a corrected line reads back as the row's values |
| Csv.DocumentReadsBack | components/DayLawyerApp.tsx:499 | the corrected export reads back as the header names followed by every row's values |
| Csv.EscLeavesLineBreakUnquoted | components/DayLawyerApp.tsx:498 | as written, "a⏎b" is left unquoted, and the row ["a⏎b", "c"] is written as "a⏎b,c" |
| Csv.LineBreakSplitsRecord | components/DayLawyerApp.tsx:498-499 | as written, that row reads back as the single field "a"; corrected, it reads back intact |
| Csv.EscQuotesLetterN | components/DayLawyerApp.tsx:498 | as written, "name" is quoted only because it contains the letter n |
| Scenarios.SampleHolidays | app/api/holidays/route.ts:6 | the endpoint's eight dates fall in the requested year; 1 January is among them and 10 June is not |
| Scenarios.NewYearDate | components/DayLawyerApp.tsx:25 | day 20089 is 2025-01-01, a Wednesday |
| Scenarios.JuneTenthDate | components/DayLawyerApp.tsx:25 | day 20249 is 2025-06-10, a Tuesday |
| Scenarios.HolidayOffersNothing | components/DayLawyerApp.tsx:375 | 2025-01-01 offers no slots |
| Scenarios.WorkingDayOffersNine | components/DayLawyerApp.tsx:376-378 | with nothing busy and the clock at 08:00, 2025-06-10 offers nine slots from 09:00 to 18:00 |
| Scenarios.BusyTenOClock | components/DayLawyerApp.tsx:377 | a busy 10:00-11:00 leaves eight slots, keeping 09:00 and 11:00 |
| Scenarios.ZeroBalanceRefused | components/DayLawyerApp.tsx:387-388 | a zero balance is refused for lack of credit, an empty plan for lack of a plan, and a positive balance passes |
| Scenarios.ConfirmingTextRequestBlocksSlot | components/DayLawyerApp.tsx:484 | a submitted text request for 14:00 leaves the slot offered; confirming it removes the slot |

## Left out

- React rendering, hash routing, the `alert`/`confirm` dialogs and the CSV and ICS downloads
  are user interface. `del` is modelled as confirmed; a declined dialog changes nothing.
- localStorage and its JSON encoding are left out. The requests, blocks, credit map and
  member list are fields of the classes.
- The holiday fetch, its timeout and the `notify` calls are network I/O. Only the pure
  fallback rule (`Calendar.HolidaysAfterFetch`) is kept.
- The time-zone conversion through `toLocaleString`, `nowKST`, `toGCalDateTime` and the ICS
  text are left out. Instants are given as Korean wall-clock seconds, and "now" is a
  parameter.
- `Date.now()` ids and creation timestamps are parameters.
- The plan a submission uses is resolved from the member and from storage before the call.
  That resolution is left out; the resolved plan is a parameter.
- String formatting of the `'YYYY-MM-DD'`, `'YYYY-MM'` and `'YYYY-Qn'` keys is left out. Dates
  and periods are the values `Ymd` and `Period`, compared by value as the strings are.
- `monthKey` and `quarterKey` read the date in the browser's own time zone. The model reads
  it in Korean time, like every other date of the application.
- An export with no completed request only shows an alert and writes no file. That
  branch is user interface.
- The CSV values are strings or missing. `String(v)` of numbers is left out, and so is
  writing the counts as text.
- Profile editing (`update`), the administrator's adjustment record (`credits:adj`) and the
  NICEPAY forms are left out. They are display and payment glue. Only the credit effect of a
  returning payment is modelled (`ActivatePlan`, `TopUp`).
- Credits.CreditAccount.TopUp: hours are real numbers. A non-numeric hours value is not
  modelled. JavaScript turns it into NaN, and `Math.max(0, Math.round(NaN))` is NaN. Storage
  encodes that as null, which `getCredits` then reads as 0, so such a top-up wipes the
  member's existing balance.
- Concurrent tabs writing the same storage are left out. Each method runs alone.

## Findings

| source | as written | input that shows it | evidently intended | confidence | as-written member | corrected member |
|---|---|---|---|---|---|---|
| components/DayLawyerApp.tsx:498 | the quoting class `[\",\\n]` holds '"', ',', backslash and the letter 'n', so a value with a line break is left unquoted; no export of this program reaches it, as the exports write only period keys and counts (components/DayLawyerApp.tsx:502-511) | the row ["a⏎b", "c"] is written as `a⏎b,c`, which a CSV reader reads as the record ["a"] followed by a second record | quote a value that holds '"', ',' or a line break, as RFC 4180 requires | high; not executed | Csv.LineBreakSplitsRecord | Csv.DocumentReadsBack |
