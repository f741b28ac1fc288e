# Booking-conflict validator of padelhub, in Dafny

padelhub lets players reserve padel courts. When a booking document is
created under `clubs/{clubId}/courts/{courtId}/bookings/{bookingId}`, the
Cloud Function `validateBooking` reads the other bookings of that court on
the same date with status `active`. It converts every `"HH:mm"` start time
to minutes since midnight and compares the new booking's minute range
`[start, start + durationMinutes)` with each of them, skipping the booking's
own document. At the first overlap it marks the new booking `invalid` with
reason `Time slot no longer available` and stops. If nothing overlaps, the
record is left as it is. Any error is *fail closed*: the booking is marked
`invalid` with reason `Validation error`.

The model:

- `TimeOfDay`: `timeToMinutes`, with its inverse `FormatTime` as a partner.
- `Overlap`: `timesOverlap` and its algebra. The algebra covers symmetry,
  adjacent slots, and agreement with "the ranges share a minute".
- `Bookings`: the booking document, the data it holds, and the minute range
  a booking occupies.
- `Scanner`: the query filter (`Candidates`), the scan as a function
  (`Scan`), and the `for` loop with its early exits as a method
  (`FindConflict`).
- `Resolution`: the verdict, the partial update of the booking's own record,
  and the class `BookingStore`. The class holds one court's bookings
  collection as a sequence of documents in store order. Its method
  `ValidateBooking` is the function body, over that store.
- `Sequential`: several validation runs executed one after another on the
  shared store. It also states the claim of the doc comment at
  functions/index.js:15-16, that only one of two competing bookings keeps the
  slot.
- `Scenarios`: concrete runs (overlap, back-to-back slots, a cancelled
  rival, a failing query, two identical slots, and a rival created after the
  first booking's run).
- `AsWritten`: the code's behaviour on a start time without a colon (see
  Findings).

Store order is the order of the query's results. A query failure is the
`queryFails` flag of the creation `Event`. The event also carries the new
document's id and the data it was created with (`snap.data()`).

Two expectations one might hold of such a validator, and what the code does
about them:

- **Empty ranges never overlap.** The code does not guarantee this. An
  empty range (zero duration) strictly inside another one counts as
  overlapping it (`Overlap.EmptyRangeInsideOverlaps`). The model follows the
  code.
- **Handling the same creation event twice changes nothing.** The code never
  looks at the booking's current status, so this is not promised. What holds
  is that no run ever makes a record active again (`Resolution.Validated`,
  `Sequential.RunAll`).

**Who wins the race.** The doc comment says the booking that reaches the
server first wins. In the sequential model, it depends on when the rival is
stored:

- Suppose both bookings are stored before either validation runs, no query
  fails, and they are the only active bookings of their date. Then the
  booking validated first sees its rival and loses, and the other keeps the
  slot (`Scenarios.IdenticalSlotsOneSurvives`). If a query fails, that
  booking is invalidated with `Validation error` whatever its rival does, so
  both can end invalid.
- Suppose the rival is created only after the first booking was validated.
  Then the rival loses (`Scenarios.LaterRivalLoses`).

The theorems in `Sequential` are about bookings that are all stored before
the first run:

- `ValidatedSurvivorIsExclusive` and its corollaries: no two overlapping
  bookings both survive once either of them has been validated. If neither
  has run, both stay active.
- `ExactlyOneOfTwoSurvives`: take two overlapping active rivals that are the
  only active bookings of their date. If no query fails, then once either of
  them has been validated, exactly one keeps the slot.

If a rival is created after a booking was validated, both stay active until
the rival's own run.

## Model

| member | source | states |
|---|---|---|
| `TimeOfDay.TimeToMinutes` | functions/index.js:80-83 | A valid `"HH:mm"` gives a minute below 1440 whose quotient and remainder by 60 are HH and mm. Any other string gives None. |
| `TimeOfDay.ClockFieldsToMinutes` | functions/index.js:80-83 | For 0 ≤ HH ≤ 23 and 0 ≤ mm ≤ 59, the time written `HH:mm` is HH·60 + mm minutes after midnight. |
| `TimeOfDay.FormatThenParse` | functions/index.js:80-83 | Every minute of the day, spelled `"HH:mm"`, converts back to itself. |
| `TimeOfDay.ParseThenFormat` | functions/index.js:80-83 | Every valid time converts to a minute that spells the same string again. |
| `Overlap.TimesOverlap` | functions/index.js:93-95 | For non-empty ranges, the test holds exactly when the later start comes before the earlier end. |
| `Overlap.OverlapSymmetric` | functions/index.js:93-95 | The overlap test gives the same answer with the two ranges swapped. |
| `Overlap.OverlapIffSharedMinute` | functions/index.js:93-95 | For non-empty ranges, `start1 < end2 && start2 < end1` holds exactly when some minute lies in both ranges. |
| `Overlap.AdjacentNeverOverlap` | functions/index.js:93-95 | A range ending where another starts does not overlap it, in either order. |
| `Overlap.BackToBackSlots` | functions/index.js:93-95 | (600,660) does not overlap (660,690), and (0,60) does not overlap (60,120). |
| `Overlap.EmptyRangeInsideOverlaps` | functions/index.js:93-95 | An empty range strictly inside another range is reported as overlapping it. |
| `Bookings.BookingSpan` | functions/index.js:43-46 | A booking's range starts at its start time in minutes, in [0, 1440), and lasts exactly durationMinutes. There is no range when the time cannot be read. |
| `Bookings.Conflicts` | functions/index.js:43-49 | The new booking's range and the existing one's are compared. A conflict needs both times readable and a positive total duration. |
| `Bookings.ConflictsSymmetricAndSlotOnly` | functions/index.js:43-49 | Whether two bookings conflict depends only on date, start and duration, and not on which booking is the new one. |
| `Scanner.IsCandidate` | functions/index.js:32-33 | The query keeps only documents of the booking's date. Invalid and cancelled bookings never pass the filter. |
| `Scanner.Candidates` | functions/index.js:31-34 | The query returns exactly the stored documents with the booking's date and status active. |
| `Scanner.CandidatesAppend` | functions/index.js:31-34 | The query filter keeps store order (it distributes over concatenation). |
| `Scanner.CandidatesIgnoreNonCandidate` | functions/index.js:31-34 | A document of another date, or with a status other than active, never appears among the results, wherever it is stored. |
| `Scanner.Scan` | functions/index.js:37-60 | A reported conflict is a document of the results with another id whose range overlaps. A failure points to another document of the results where its start time or the new booking's cannot be read. |
| `Scanner.ScanReportsFirstConflict` | functions/index.js:49-58 | The scan reports the first overlapping other document in store order, if every other document before it is readable and disjoint. |
| `Scanner.ScanClearIff` | functions/index.js:37-60 | The scan finds nothing exactly when every document with another id is readable and disjoint (both directions). |
| `Scanner.ScanSkipsSelf` | functions/index.js:38 | A document with the booking's own id, inserted anywhere in the results, never changes the scan. |
| `Scanner.FindConflict` | functions/index.js:37-60 | The loop with `continue` on its own id and early return computes exactly `Scan` of the query results. |
| `Resolution.Verdict` | functions/index.js:49-71 | A failing query always gives `Validation error`. The only outcomes are no write, `Time slot no longer available` or `Validation error`. No write means the scan of the query results found nothing. |
| `Resolution.MarkInvalid` | functions/index.js:53-56 | The partial update sets only status `invalid` and the reason on the booking's own document. Every other document and every other field stays as it was. |
| `Resolution.Validated` | functions/index.js:24-72 | After one run only the booking's own record can differ. It keeps its slot fields and is then `invalid` with one of the two reasons. No record becomes active. |
| `Resolution.VerdictClearIff` | functions/index.js:31-63 | The record is left untouched exactly when the query answers and every other active booking of the date is readable and disjoint (both directions). |
| `Resolution.SlotTakenOnlyOnOverlap` | functions/index.js:49-58 | `Time slot no longer available` is written only when the query answered and a real overlap exists with another active booking of the same date. |
| `Resolution.OverlapInvalidates` | functions/index.js:49-58 | When the query answers and all times are readable, any overlapping other active booking of the date makes the new booking `invalid` with `Time slot no longer available`. |
| `Resolution.NoOverlapLeavesStoreUnchanged` | functions/index.js:62-63 | When the query answers and every other active booking of the date is readable and disjoint, the whole store is unchanged. |
| `Resolution.QueryFailureFailsClosed` | functions/index.js:64-71 | When the query fails, the booking ends `invalid` with `Validation error`, never active. |
| `Resolution.UnreadableStartFailsClosed` | functions/index.js:43-45 | A booking whose start time cannot be read gets `Validation error` once any other active booking of its date exists. |
| `Resolution.NonCandidateNeverDecides` | functions/index.js:31-34 | Adding a booking of another date, or one that is not active, anywhere in the store never changes the verdict. |
| `Resolution.BookingStore.ValidateBooking` | functions/index.js:18-73 | The store after the method is exactly `Validated` of the store before it, and document ids stay unique. |
| `Sequential.RunAll` | functions/index.js:15-16 | A sequence of runs keeps every document's id and slot fields, and never makes a record active. |
| `Sequential.StepEstablishes` | functions/index.js:37-63 | After its own run, a booking is either not active or has no overlapping active booking of its date. |
| `Sequential.StepKeepsExclusive` | functions/index.js:53-56 | Another booking's run never breaks that exclusivity, since runs only invalidate. |
| `Sequential.RunAllKeepsExclusive` | functions/index.js:15-16 | Exclusivity survives any number of later runs. |
| `Sequential.StepKeepsStoreShape` | functions/index.js:53-56 | A run keeps ids unique and keeps each event's data in step with its stored document. |
| `Sequential.ValidatedSurvivorIsExclusive` | functions/index.js:15-16 | A booking that was validated and is still active at the end has no overlapping active booking of its date. |
| `Sequential.AtMostOneOfTwoSurvives` | functions/index.js:15-16 | Of two overlapping bookings of the same date, both stored before the first run, at most one is active once either has been validated. |
| `Sequential.LoneRivalKeepsSlot` | functions/index.js:37-63 | When the query answers, a booking whose only rival of the date is no longer active finds no conflict, and its run leaves the store as it was. |
| `Sequential.StepKeepsOneOfTwo` | functions/index.js:49-63 | When the query does not fail, a run never invalidates the last active booking of two rivals that are alone on their date. |
| `Sequential.AtLeastOneOfTwoSurvives` | functions/index.js:15-16 | With no query failing, any sequence of runs leaves at least one of two such rivals active. |
| `Sequential.ExactlyOneOfTwoSurvives` | functions/index.js:15-16 | Two overlapping active bookings, alone on their date and stored before the first run: once either is validated, with no query failing, exactly one of them is active. |
| `Sequential.NoDoubleBookingAfterAllValidated` | functions/index.js:15-16 | Once every initially active booking has been validated, no two active bookings of a date overlap. |
| `Scenarios.OverlappingBookingIsInvalidated` | functions/index.js:49-58 | A booking at 10:30 for 30 minutes, next to an active one at 10:00 for 60, becomes `invalid` with `Time slot no longer available`. |
| `Scenarios.BackToBackBookingSurvives` | functions/index.js:43-49 | A booking at 11:00 for 30 minutes, after an active one at 10:00 for 60, leaves the store unchanged. |
| `Scenarios.CancelledBookingDoesNotBlock` | functions/index.js:33 | A cancelled booking on the identical slot does not invalidate the new one. |
| `Scenarios.QueryErrorInvalidates` | functions/index.js:64-71 | A failing query makes the new booking `invalid` with `Validation error`. |
| `Scenarios.IdenticalSlotsOneSurvives` | functions/index.js:15-16 | Two bookings of the same slot, validated one after the other, end with exactly one active. |
| `Scenarios.LaterRivalLoses` | functions/index.js:15-16 | A booking validated while alone keeps its slot. A rival created later for an overlapping slot is invalidated. |
| `AsWritten.ScanAsWritten` | functions/index.js:37-60 | Covers start times that are valid `HH:mm` or have no colon. As written, the loop never fails on a time, because a time without a colon becomes NaN, compares false, and the loop goes on. |
| `AsWritten.VerdictAsWritten` | functions/index.js:49-71 | For the same start times, the code writes `Validation error` exactly when the query fails, never because of a start time. |
| `AsWritten.ColonlessStartNeverConflictsAsWritten` | functions/index.js:80-83 | As written, a booking whose start time has no colon is never found overlapping anything. |
| `AsWritten.MalformedStartTimeSurvivesAsWritten` | functions/index.js:43-49 | `10h30` against an active 10:00 booking: the code keeps the booking active, while the fail-closed model gives `Validation error`. |

## Left out

- Firestore access (`admin.firestore()`, the `where(...).get()` query,
  `snap.ref.update`) and `admin.initializeApp()`. The store is one court's
  bookings collection as a sequence of documents. The club and court path
  segments only select that collection.
- A failing write. An update of an id that is not in the store writes
  nothing. This matches the code, where both updates would throw.
- `console.log` and `console.error`: logging only.
- `cleanupOldBookings`: a scheduled stub that only logs.
- Concurrency between independent invocations. Only sequential orders of
  whole runs are modelled (`Sequential`).
- `Sequential.RunAll` covers only validations of documents already in the
  store. A booking created between two runs is not modelled. The theorems of
  `Sequential` therefore concern bookings all stored before the first run.
- Re-delivery idempotence. The code does not promise it.
- `TimeOfDay.TimeToMinutes`: reads only valid two-digit `HH:mm` times from
  00:00 to 23:59.
  - The code turns some other strings with a colon into ordinary numbers:
    `9:05` gives 545, `10:30:00` gives 630, ` 10: 30` gives 630.
  - Out-of-range two-digit times become numbers too: `24:00` gives 1440,
    `25:00` gives 1500, `10:75` gives 675.
  - Other strings with a colon become NaN in the code, as in `10:3x`,
    `1a:30` and `ab:cd`.
  - The model treats all of these as unreadable. When they are compared, it
    sends the booking to `Validation error`. The code instead compares the
    number it computed, or, for NaN, skips the document as it does for a
    string without a colon.
- `AsWritten.ScanAsWritten`, `AsWritten.VerdictAsWritten` and
  `AsWritten.ColonlessStartNeverConflictsAsWritten` require every start
  time involved to be a valid `HH:mm` or to contain no colon. Only for those
  strings does the model reproduce the code's conversion. A string without a
  colon always gives NaN there: the split yields one part, so the minutes
  part is undefined.
- Missing fields and non-integer or NaN durations. Every record carries a
  start time string and an integer duration.
- Statuses other than `active`, `invalid` and `cancelled`. Any such status
  acts like `cancelled` as far as the query is concerned.

## Findings

| source | as written | input that shows it | evidently intended | confidence | as-written member | corrected member |
|---|---|---|---|---|---|---|
| functions/index.js:80-83 | A start time without a colon converts to NaN: the split yields one part, so the minutes part is undefined. Every comparison in `timesOverlap` is then false, so the booking is never found overlapping and stays `active`. | A new booking with start time `10h30` for 30 minutes, on a date with an active 10:00 booking for 60 minutes. | Fail closed: a booking that could not be validated ends `invalid` with `Validation error`, as the catch branch at lines 64-71 intends. | medium; not executed | `AsWritten.MalformedStartTimeSurvivesAsWritten` | `Resolution.UnreadableStartFailsClosed` |
