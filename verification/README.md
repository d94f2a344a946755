# QueueFlow queue core in Dafny

QueueFlow is a ticket-calling application. Staff at a service counter ("gabinete") call the next
ticket number or a specific one, and a public display shows the latest call and plays a sound.
This project models the queue provider and four smaller pieces of sequential logic around it:

- **Allocator** (`allocator.dfy`). The organisation's effective `max_count`: a null or zero value
  falls back to 99. The next ticket number is the last number plus one, 1 when there is no last
  number, and 1 again when the successor exceeds the maximum.
- **QueueContext** (`queue_context.dfy`). Two classes and the pure rules they follow.
  - `CallStore` is the `queue_calls` table as an append-only log. Rows get increasing ids, and
    each carries the issuing browser's clock reading as `created_at`. The latest row of an
    organisation is the one with the greatest `created_at` (`LatestFor`), which need not be the
    one appended last.
  - `QueueProvider` holds `lastCall` and `lastCallRef`. Every writer assigns both, so they stay
    equal.
  - The issuers `CallNext` and `CallSpecificNumber` check their guards, plan the row
    (`PlanNext`, `PlanSpecific`), write it and update the snapshot optimistically. They report
    every failure as an `Outcome` value and never reject.
  - The three feeds (`LoadInitialState`, `Poll`, `OnChange`) each deliver one candidate. Any
    interleaving of the feeds is any sequence of these calls.
  - Poll and event candidates follow the identity-only merge rule `Merge`.
- **Display** (`display.dfy`). The display page's sound gate, its `playSound` and
  `hasInteracted` flags, and the ticket text.
- **Middleware** (`middleware.dfy`). The route guard: public-route classification and the decision
  between passing the request, redirecting to sign-in (with or without `redirectTo`) and
  redirecting to the dashboard.
- **SettingsModal** and **CounterConfig** (`settings_modal.dfy`, `counter_config.dfy`). The two
  counter-list editors. CounterConfig's `handleSave` is a method whose loops stop at the first
  store error.

Helpers: `Text` (JavaScript `String(n)`, `padStart`, and a decimal reader as their partner),
`Sequences` (order-keeping subsequence) and `Wrappers` (`Option`).

Store answers are parameters of the methods: read errors, the `max_count` row, insert and update
errors, and the clock value written to `created_at` (an integer, in milliseconds). The latest call
of an organisation is computed from the store's rows.

Behaviour of the code that a reader might not expect, and that the model keeps:

- The merge rule compares ids only. A late poll answer holding an older call with a different id
  replaces a newer snapshot, so the snapshot can move backwards (`StaleCandidateReplaces`). Nothing
  in the code keeps the newer call.
- `callSpecificNumber` reads no sequence cursor. But the row it writes becomes the organisation's
  latest, so the next `callNext` continues from `n + 1` (`NextAfterSpecific`). A specific call
  therefore does move the sequence.
- The error of the last-call read in `callNext` is never checked. A failed read gives number 1,
  just like an empty table (`ReadFailureRestartsAtOne`).
- A negative `max_count` is truthy and is used as it is. No clamping or rejection happens.
- `callNext` reads the last number and inserts later, with nothing in between to stop another
  counter. Two calls whose reads both come back before either insert issue the same number
  (`InterleavedCallsRepeatNumber`).

## Model

| member | source | states |
|---|---|---|
| `Allocator.EffectiveMaxCount` | src/contexts/QueueContext.tsx:165 | a null or zero `max_count` gives 99; any other value is used unchanged |
| `Allocator.EffectiveMaxCountPositive` | src/contexts/QueueContext.tsx:222 | a missing or non-negative `max_count` gives an effective maximum of at least 1 |
| `Allocator.NextNumber` | src/contexts/QueueContext.tsx:168-173 | the next number is 1, or the successor of the last number when that does not exceed the maximum |
| `Allocator.NextNumberFirst` | src/contexts/QueueContext.tsx:168 | with no prior call the next number is 1 for any maximum |
| `Allocator.NextNumberCases` | src/contexts/QueueContext.tsx:168-173 | the next number is last+1 when that is at most the maximum, otherwise 1; last == maximum gives 1 |
| `Allocator.NextNumberInRange` | src/contexts/QueueContext.tsx:168-173 | for maximum ≥ 1 and last ≥ 0 (or none) the next number lies in [1, maximum] |
| `Allocator.Issue` | src/contexts/QueueContext.tsx:168-173 | k successive issues: each number is the allocator applied to the previous one |
| `Allocator.IssueCycles` | src/contexts/QueueContext.tsx:168-173 | from an empty queue the i-th issued number is i mod maximum + 1, so the numbers cycle 1..maximum |
| `Allocator.WrapAroundAtThree` | src/contexts/QueueContext.tsx:168-173 | with maximum 3, four calls from empty give 1, 2, 3, 1 |
| `QueueContext.LatestFor` | src/contexts/QueueContext.tsx:149-156 | the latest row of an organisation has its organisation id and no row of it has a later `created_at`; none iff the organisation has no row |
| `QueueContext.LatestIsARow` | src/contexts/QueueContext.tsx:149-156 | the latest row found is one of the table's rows |
| `QueueContext.LatestAfterInsert` | src/contexts/QueueContext.tsx:176-188 | an inserted row becomes its organisation's latest when no row of it has a later `created_at`, leaves the latest unchanged when one has, and leaves other organisations' latest unchanged |
| `QueueContext.CallStore.Insert` | src/contexts/QueueContext.tsx:176-190 | a failed insert changes nothing; a successful one appends exactly the drafted row with a fresh id above all earlier ids |
| `QueueContext.LastNumberRead` | src/contexts/QueueContext.tsx:149-168 | the number read is the latest row's number; a failed read or no row gives no number |
| `QueueContext.PlanNext` | src/contexts/QueueContext.tsx:142-186 | rejects iff organisation or counter is missing (NoCounterSelected) or the org read failed (StoreReadFailure); otherwise drafts the allocator's number with the current counter's id and name and the organisation id |
| `QueueContext.PlanSpecific` | src/contexts/QueueContext.tsx:204-241 | guard first, then n ≤ 0 is InvalidNumber, a failed org read is a read failure, n above the effective maximum is NumberExceedsLimit with that maximum; a write happens iff all pass, with exactly n and no last-number read |
| `QueueContext.ReadFailureRestartsAtOne` | src/contexts/QueueContext.tsx:149-168 | the last-call read's error is not checked, so a failed read makes callNext issue 1 |
| `QueueContext.NextAfterSpecific` | src/contexts/QueueContext.tsx:228-249 | after callSpecificNumber(n) writes with a clock not earlier than the organisation's rows, the number callNext reads next is n |
| `QueueContext.InterleavedCallsRepeatNumber` | src/contexts/QueueContext.tsx:149-188 | two callNext calls planned from the same read of the table draft the same number, whichever counters issue them |
| `QueueContext.SpecificAboveLimit` | src/contexts/QueueContext.tsx:224-226 | callSpecificNumber(150) with max_count 99 is refused as NumberExceedsLimit(99) |
| `QueueContext.Merge` | src/contexts/QueueContext.tsx:94 | a candidate replaces the held call iff none is held or its id differs; the result always has the candidate's id |
| `QueueContext.AfterInitialLoad` | src/contexts/QueueContext.tsx:62-71 | an error other than PGRST116 or no data keeps the snapshot; otherwise the data is taken without an id check |
| `QueueContext.AfterPoll` | src/contexts/QueueContext.tsx:89-98 | an error other than PGRST116 or no data keeps the snapshot; otherwise the data is merged by identity |
| `QueueContext.AfterEvent` | src/contexts/QueueContext.tsx:117-124 | INSERT and UPDATE payloads are merged by identity; DELETE keeps the snapshot |
| `QueueContext.MergeIdempotent` | src/contexts/QueueContext.tsx:94-98 | delivering the same call again, by the same or the other feed, changes nothing |
| `QueueContext.UpdateOfHeldIgnored` | src/contexts/QueueContext.tsx:117-123 | an UPDATE event with the held id is ignored even when its contents differ |
| `QueueContext.PollErrorIgnored` | src/contexts/QueueContext.tsx:89-92 | a poll error other than PGRST116 leaves the snapshot unchanged whatever data came with it |
| `QueueContext.StaleCandidateReplaces` | src/contexts/QueueContext.tsx:119 | a stale call (id 5) delivered after a newer one (id 6) replaces it: the snapshot can move backwards |
| `QueueContext.DeliverAll` | src/contexts/QueueContext.tsx:89-124 | after a non-empty series of poll or event deliveries the snapshot holds a call with the last delivery's id |
| `QueueContext.DeliverAllObserved` | src/contexts/QueueContext.tsx:115-124 | after any series of deliveries the snapshot is the prior call or one delivered call, never a hybrid, and has the last delivery's id |
| `QueueContext.DeliverOneMore` | src/contexts/QueueContext.tsx:89-124 | one more poll answer or INSERT event is one more merge step of the series |
| `QueueContext.DeliverDuplicate` | src/contexts/QueueContext.tsx:94-98 | delivering a call twice in a row equals delivering it once |
| `QueueContext.QueueProvider.constructor` | src/contexts/QueueContext.tsx:39-42 | the provider starts with no call and no counter, lastCall equal to lastCallRef |
| `QueueContext.QueueProvider.SetCurrentCounter` | src/contexts/QueueContext.tsx:40 | selecting a counter sets exactly that counter |
| `QueueContext.QueueProvider.LoadInitialState` | src/contexts/QueueContext.tsx:52-75 | the snapshot becomes AfterInitialLoad of the old one; lastCall and lastCallRef stay equal |
| `QueueContext.QueueProvider.Poll` | src/contexts/QueueContext.tsx:79-102 | the snapshot becomes AfterPoll of the old one; lastCall and lastCallRef stay equal |
| `QueueContext.QueueProvider.OnChange` | src/contexts/QueueContext.tsx:115-125 | the snapshot becomes AfterEvent of the old one; lastCall and lastCallRef stay equal |
| `QueueContext.QueueProvider.Issue` | src/contexts/QueueContext.tsx:176-196 | a rejected plan or failed insert leaves the store and both snapshot slots unchanged; a successful insert appends one row and sets both slots to it without an id check |
| `QueueContext.QueueProvider.CallNext` | src/contexts/QueueContext.tsx:142-202 | outcome, store and snapshot follow PlanNext on the store's latest row; every failure is a returned Failed outcome with nothing written |
| `QueueContext.QueueProvider.CallSpecificNumber` | src/contexts/QueueContext.tsx:204-255 | outcome, store and snapshot follow PlanSpecific; every failure is a returned Failed outcome with nothing written |
| `QueueContext.WrapAroundScenario` | src/contexts/QueueContext.tsx:142-196 | through the provider: callNext with no counter writes no row; four callNext calls one clock tick apart with max_count 3 issue 1, 2, 3, 1 |
| `Display.ShouldPlay` | src/app/display/page.tsx:24 | the gate opens only for a shown call that differs from the one recorded as played |
| `Display.NoReplayOfPlayedCall` | src/app/display/page.tsx:24-28 | once a call is played and recorded, re-running the effect on it plays nothing |
| `Display.DeferredPlay` | src/app/display/page.tsx:24-29 | a new call does not play while muted or before interaction, and plays once both flags are on if it is still current |
| `Display.PlayedAfter` | src/app/display/page.tsx:23-30 | after a series of effect runs the recorded call is the one recorded before or a call that was on screen in one of the runs |
| `Display.Sounds` | src/app/display/page.tsx:23-30 | a series of effect runs plays at most one sound per run, each for a call that was on screen |
| `Display.RenderOneMore` | src/app/display/page.tsx:23-30 | one more effect run records and sounds the shown call iff the gate opens against the call recorded so far |
| `Display.SoundsNeverRepeat` | src/app/display/page.tsx:23-30 | over any series of renders the recorded call is the last one played and no two consecutive sounds share a call id |
| `Display.TicketText` | src/app/display/page.tsx:123 | "00" with no call; at least 2 characters; for a non-negative number, all digits and reading back as the number |
| `Display.TicketTextPadding` | src/app/display/page.tsx:123 | a one-digit number gets one leading '0'; longer numbers are shown unpadded |
| `Display.DisplayPage.constructor` | src/app/display/page.tsx:17-19 | sound starts on, no interaction yet, nothing played |
| `Display.DisplayPage.SoundEffect` | src/app/display/page.tsx:23-30 | plays iff a call is shown, sound is on, the user has interacted and its id differs from the recorded one; the recorded call changes only when it plays |
| `Display.DisplayPage.ToggleSound` | src/app/display/page.tsx:95 | playSound becomes its negation |
| `Display.DisplayPage.FullscreenChanged` | src/app/display/page.tsx:33-37 | hasInteracted becomes true on fullscreen entry and is never reset |
| `Display.DisplayPage.HandleFullscreen` | src/app/display/page.tsx:60-63 | the fullscreen button sets hasInteracted |
| `Text.NatToString` | src/app/display/page.tsx:123 | decimal digits without a leading zero, one digit iff the number is below 10 |
| `Text.IntToString` | src/app/display/page.tsx:123 | a non-negative number prints as its decimal digits; a negative one as '-' followed by the digits of its magnitude |
| `Text.PadStart` | src/app/display/page.tsx:123 | the result has length max(len, width), ends with the input and is filled with the pad character before it |
| `Text.ParseNatToString` | src/app/display/page.tsx:123 | printing a natural number and reading it back gives the number |
| `Text.PaddedNatReadsBack` | src/app/components/SettingsModal.tsx:29 | a number padded with zeros is all digits and still reads back as the number |
| `Middleware.SomeRoute` | src/middleware.ts:11-15 | the `some` over the route list holds iff the path is listed or (list non-empty and) the path starts with "/auth/" |
| `Middleware.IsPublicRoute` | src/middleware.ts:11-15 | a path is public iff it is "/", "/auth/signin", "/auth/callback" or starts with "/auth/" |
| `Middleware.Decide` | src/middleware.ts:17-51 | redirects go only to sign-in or the dashboard; the dashboard only for an answered lookup with a session on a public path other than "/"; an answered lookup sends only protected paths to sign-in; redirectTo, when set, is the requested path |
| `Middleware.LookupFailure` | src/middleware.ts:20-28 | a failed lookup redirects a non-public path to sign-in with redirectTo = the path, and passes a public one |
| `Middleware.SignedOut` | src/middleware.ts:31-36 | without a session a non-public path redirects to sign-in with redirectTo = the path; a public one passes |
| `Middleware.SignedIn` | src/middleware.ts:39-44 | with a session a public path other than "/" redirects to the dashboard; everything else passes |
| `Middleware.GuardThrew` | src/middleware.ts:45-51 | on a throw, a path outside "/auth/" redirects to sign-in without redirectTo; others pass |
| `Middleware.NoSelfRedirect` | src/middleware.ts:20-51 | no redirect targets the requested path |
| `Middleware.RedirectToIsRequestedPath` | src/middleware.ts:20-36 | redirectTo is only set on redirects to sign-in, and then it is the requested path |
| `SettingsModal.MaxId` | src/app/components/SettingsModal.tsx:28 | max(0, ids): non-negative, at least every id, and 0 or one of the ids |
| `SettingsModal.NextId` | src/app/components/SettingsModal.tsx:28 | the new id is the least one that is at least 1 and greater than every existing id: 1, or one more than an existing id |
| `SettingsModal.DefaultName` | src/app/components/SettingsModal.tsx:29 | the name is "Guichê " followed by the id's decimal digits padded with zeros to two places, which read back as the id |
| `SettingsModal.AddCounter` | src/app/components/SettingsModal.tsx:27-30 | appends exactly one entry after the unchanged list, with id NextId (above all others) and its default name |
| `SettingsModal.RemoveCounter` | src/app/components/SettingsModal.tsx:32-34 | keeps exactly the entries whose id differs, each as often as before, in their original order |
| `SettingsModal.UpdateCounterName` | src/app/components/SettingsModal.tsx:36-40 | length and ids unchanged; entries with the id get the new name, the others keep theirs |
| `SettingsModal.AddKeepsIdsUnique` | src/app/components/SettingsModal.tsx:27-30 | unique ids stay unique after an add |
| `SettingsModal.RemoveKeepsIdsUnique` | src/app/components/SettingsModal.tsx:32-34 | unique ids stay unique after a removal |
| `SettingsModal.ConsKeepsIdsUnique` | src/app/components/SettingsModal.tsx:32-34 | an entry whose id is absent from a list with unique ids can be put in front keeping ids unique |
| `SettingsModal.RenameKeepsIdsUnique` | src/app/components/SettingsModal.tsx:36-40 | unique ids stay unique after a rename |
| `CounterConfig.HandleAddCounter` | src/components/CounterConfig.tsx:26-33 | appends one counter after the unchanged list: no id, active, the organisation id, named "Gabinete " + (previous length + 1) |
| `CounterConfig.DefaultName` | src/components/CounterConfig.tsx:28 | "Gabinete " followed by the number's decimal digits, which read back as the number |
| `CounterConfig.HandleUpdateCounter` | src/components/CounterConfig.tsx:63-67 | same length; entries whose id equals the given one (both possibly absent) are renamed, the rest are unchanged |
| `CounterConfig.RenameUnsavedRenamesAllUnsaved` | src/components/CounterConfig.tsx:149 | renaming an unsaved row passes an absent id and renames every counter without an id |
| `CounterConfig.RemoveById` | src/components/CounterConfig.tsx:55 | keeps exactly the counters whose id differs, each as often as before, in order |
| `CounterConfig.HandleRemoveCounter` | src/components/CounterConfig.tsx:35-61 | no organisation or a failed deactivation leaves the list unchanged; otherwise the counters with that id are removed |
| `CounterConfig.RemoveUnsavedAt` | src/components/CounterConfig.tsx:154 | drops exactly the one element at that position, the rest in order |
| `CounterConfig.Unsaved` | src/components/CounterConfig.tsx:77 | the insert loop gets exactly the counters without a truthy id, each as often as in the list, in list order |
| `CounterConfig.SavedOnes` | src/components/CounterConfig.tsx:94 | the update loop gets exactly the counters with a truthy id, each as often as in the list, in list order |
| `CounterConfig.SaveSplitsCounters` | src/components/CounterConfig.tsx:77-94 | the insert and update lists together hold every counter exactly once |
| `CounterConfig.FirstFailure` | src/components/CounterConfig.tsx:87-107 | the index of the first failing request: none fails before it, and it fails unless it is the end |
| `CounterConfig.FirstFailureIs` | src/components/CounterConfig.tsx:87-107 | the first failure is the unique index before which nothing fails and at which something does |
| `CounterConfig.Attempted` | src/components/CounterConfig.tsx:77-107 | the requests a loop sends are a prefix of the items in which only the last may fail, cut short only by a failure; all items when none fails |
| `CounterConfig.SendUntilError` | src/components/CounterConfig.tsx:77-91 | sends exactly the attempted prefix and reports success iff no request failed |
| `CounterConfig.HandleSave` | src/components/CounterConfig.tsx:69-136 | no organisation sends nothing; inserts stop at the first failure and then no update is sent; onSave/onClose are reached iff every insert, update and the re-read succeed |

## Left out

- Transport: query builders, `.single()`, `Promise.all`, the realtime channel subscription, the 2-second timer and the teardown on organisation change. Each feed is one method call with its answer as a parameter.
- Lifecycle: the organisation is fixed when the provider is created, and the feed methods require an organisation with an id, as the effect starts only then. Re-running the effect when the organisation changes is not modelled.
- Feeds scoped to other organisations: candidates are taken as delivered, whatever their organisation id.
- QueueContext.LatestFor: rows with equal `created_at` have no order in the table; the model takes the one appended last. The clock is an integer, not an ISO string.
- QueueContext.QueueProvider.CallNext: the read, the `max_count` read and the insert are one step of the method, so another counter's insert cannot fall between them inside one call. The duplicate number such an interleaving yields is stated on the plans by `InterleavedCallsRepeatNumber`.
- `alert` and `console` output: failures are `Outcome` values, and the message text is reduced to the `Error` kind.
- JavaScript numbers that are NaN or not integers: numbers are Dafny integers.
- The clock: `created_at` is the issuers' `now` parameter. Nothing relates it to other browsers' clocks.
- The rows `handleSave` sends and the counters `onSave` receives from the re-read: the model records which counters were sent and whether `onSave`/`onClose` are reached.
- SettingsModal's delete-all/insert save and the middleware `matcher` pattern: store and framework behaviour.
- Audio and fullscreen browser APIs: a play is the `SoundEffect` result. Fullscreen state is an input of `FullscreenChanged`.
- Statistics pages, dashboard glue, authentication screens, the socket server and the scratch test page. None of them is part of this model.
