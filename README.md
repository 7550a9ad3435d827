# Room booking: the scheduling rules of the booking page

This project models the domain logic of a single-room booking page
(`App.tsx`) without React or Firebase. It covers:

- how a new booking is screened and added to the collection;
- how the nineteen half-hour slot labels from 09:00 to 18:00 are produced;
- how the day view finds, for each slot, the booking that starts in it;
- the card height and the delete control for that booking;
- how the "Occupied / Available Now" status is decided;
- how today's date is written.

The point of the model is one assumption the whole page rests on. Times
are `HH:mm` strings. The page compares them as strings when it checks for
conflicts and computes occupancy. It parses them into minutes when it lays
out the day. `TimeOfDay.TimeOrder` proves that for well-formed zero-padded
labels the two orders agree. The model proves, in string order, that the
creation guard keeps same-date bookings pairwise non-overlapping
(`Bookings.AppendKeepsNoOverlap`). `TimeOrder` is what lets that invariant
be read in minutes, as disjoint minute ranges (`Bookings.NoOverlapInMinutes`),
the way the day view lays the bookings out.

The modules:

- `Text`: the JavaScript string primitives the code uses.
  - `String(n)` is `NatToString`.
  - `padStart` is `PadStart`.
  - Relational `<` on strings is `LexLess`, comparing characters lexicographically. Dafny's own `<` on sequences means "proper prefix", so it is not used.
- `TimeOfDay`: the `HH:mm` label, the parse `split(":").map(Number)`, and string order versus minute order.
- `Calendar`: the `YYYY-MM-DD` formatting of `getTodayString`.
- `Bookings`: the booking record, the conflict test, the `bookedBy` fallback, and the non-overlap invariant.
- `Occupancy`: `isRoomOccupiedNow`.
- `Schedule`: `timeSlots`, `currentBookings`, the per-slot `find`, `duration` and `isOwner`.
- `Store`: the page state as a class.
  - `bookings` is the collection as last delivered by the live query, or as changed by a write since.
  - `form` is the "new booking" form.
  - The methods are the submit handler, the cancel handler, the snapshot listener and the form inputs.

Inputs from outside are parameters:

- the signed-in user;
- the identifier the store assigns to a new document;
- whether a write succeeds;
- whether the user confirmed a cancellation;
- the clock's date fields, hours and minutes;
- each snapshot the live query delivers.

## Model

| member | source | states |
|---|---|---|
| Text.NatToString | App.tsx:72-73 | `String(n)` is a non-empty run of digits that denotes `n`, one digit exactly below 10, with no leading zero |
| Text.PadStart | App.tsx:72-73 | `padStart` leaves a string of at least the width unchanged and otherwise makes it exactly the width |
| Text.PadStartShape | App.tsx:72-73 | the padded string ends with the original and is filled in front with the fill character |
| Text.Pad2 | App.tsx:222-226 | below 100, `String(n).padStart(2, "0")` is two digits denoting `n`; from 100 on it is `String(n)` unshortened, three digits or more |
| Text.LexLess | App.tsx:157 | no time string is before itself, so `end <= start` rejects `end == start` |
| Text.LexLessFirstDifference | App.tsx:165-166 | `a < b` iff at the first position where the strings differ `a` has the smaller character, or `a` is a proper prefix of `b` |
| Text.LexLessTotal | App.tsx:157 | of two different strings exactly one is the smaller, so `end <= start` is the negation of `start < end` |
| Text.LexLessConcat | App.tsx:165-166 | comparing strings that start with equal-width fields: the first field decides unless equal, then the rest |
| Text.TwoDigitOrder | App.tsx:165-166 | on two-digit fields string order is numeric order and string equality is numeric equality |
| TimeOfDay.ClockLabel | App.tsx:244-247 | for hours and minutes below 100 the label is five characters, `:` in the middle, its two fields reading back as the hour and the minute |
| TimeOfDay.HourOf | App.tsx:428 | the hour field of a well-formed label is below 24 |
| TimeOfDay.MinuteOf | App.tsx:428 | the minute field of a well-formed label is below 60 |
| TimeOfDay.MinuteOfDay | App.tsx:429 | `h * 60 + m` of a well-formed label is a minute of the day, below 1440 |
| TimeOfDay.FirstColon | App.tsx:428 | the split point is the first `:` or the end of the string |
| TimeOfDay.ParseTime | App.tsx:432-433 | the parse yields a number only for a string that contains `:` |
| TimeOfDay.FieldsWellFormed | App.tsx:227 | two in-range two-digit fields joined by `:` form a well-formed label of `hh * 60 + mm` |
| TimeOfDay.ClockLabelWellFormed | App.tsx:244-247 | the label of hours below 24 and minutes below 60 is well formed and denotes `h * 60 + m` |
| TimeOfDay.WellFormedIsClockLabel | App.tsx:244-247 | every well-formed label is exactly the label the clock would produce for its hour and minute |
| TimeOfDay.ParseWellFormed | App.tsx:428-429 | parsing a well-formed label gives the minute of the day it denotes |
| TimeOfDay.ParseClockLabel | App.tsx:221-228 | the label of any minute of the day is well formed and parses back to that minute |
| TimeOfDay.TimeOrder | App.tsx:165-166 | for well-formed labels `s1 < s2` holds iff `s1`'s minute is smaller, and `s1 == s2` iff the minutes are equal |
| Calendar.DateString | App.tsx:69-75 | for a month index below 12 and a day below 100: the year's digits denoting the year, `-`, two digits denoting `getMonth() + 1`, `-`, two digits denoting the day |
| Calendar.DateStringInjective | App.tsx:69-75 | different month indices below 12 or days from 1 to 31 or years give different date strings |
| Calendar.DateStringShape | App.tsx:69-75 | with a four-digit year the date has the `YYYY-MM-DD` shape: ten characters, dashes at 4 and 7, digits denoting the year at 0-3, `getMonth() + 1` at 5-6 and the day at 8-9 |
| Calendar.FourDigitYear | App.tsx:71 | `String(year)` of a year from 1000 to 9999 has four digits |
| Calendar.DateStringExample | App.tsx:69-75 | year 2024, `getMonth()` 0, day 5 is written "2024-01-05" |
| Bookings.BookedBy | App.tsx:183 | the recorded name is the display name when present and non-empty, else the email when that is, else "Unknown"; never empty |
| Bookings.Conflicts | App.tsx:163-166 | on well-formed times the string test holds iff the booking has the candidate's date and the half-open minute intervals overlap |
| Bookings.HasConflict | App.tsx:162-167 | true iff some booking has the candidate's date and `start < b.endTime && b.startTime < end` |
| Bookings.Filter | App.tsx:238 | the result holds exactly the bookings that pass the test, and no more of them than the input |
| Bookings.FilterAppend | App.tsx:238 | filtering a concatenation is the concatenation of the filtered parts, so the kept bookings stay in the input's order with their multiplicity |
| Bookings.FilterSingleton | App.tsx:238 | a single booking is kept iff it passes the test |
| Bookings.ClashSymmetric | App.tsx:162-167 | the overlap test does not depend on which booking came first |
| Bookings.TouchingIsNoConflict | App.tsx:165-166 | a candidate that starts when a booking ends, or ends when it starts, does not conflict with it |
| Bookings.AppendKeepsNoOverlap | App.tsx:162-185 | appending a candidate without conflict to an overlap-free collection keeps it overlap-free |
| Bookings.FilterKeepsNoOverlap | App.tsx:197 | removing bookings keeps an overlap-free collection overlap-free |
| Bookings.NoOverlapInMinutes | App.tsx:162-167 | two same-date bookings of an overlap-free collection occupy disjoint minute ranges |
| Bookings.ConflictExamples | App.tsx:162-167 | against 10:00-11:00: 10:30-11:30 conflicts; 11:00-12:00, 09:00-10:00, another date and an empty list do not |
| Occupancy.CoversNow | App.tsx:250 | on well-formed times a booking covers the current time iff it is dated today and its start minute is at most the current minute, which is below its end minute |
| Occupancy.AnyCoversNow | App.tsx:249-251 | true iff some booking has today's date, `startTime <= now` and `now < endTime` |
| Occupancy.IsRoomOccupiedNow | App.tsx:242-252 | for a clock reading and well-formed bookings: occupied iff a booking dated today has `start <= now < end` in minutes |
| Occupancy.OccupancyExamples | App.tsx:249-251 | a 09:00-10:00 booking covers 09:30, but not 10:00 (end excluded) or 08:59 |
| Occupancy.ClockExampleOccupied | App.tsx:242-252 | at 9 h 30 on the booking's date the room is occupied |
| Occupancy.ClockExampleFree | App.tsx:242-252 | at 10 h 0, when the booking ends, the room is free |
| Schedule.TimeSlots | App.tsx:221-228 | there are exactly 19 slot labels |
| Schedule.SlotLabel | App.tsx:221-228 | label `i` is a well-formed time for minute `540 + 30 * i` and parses back to it |
| Schedule.SlotLabels | App.tsx:221-228 | every label offered by the slot lists is well formed and parses back to its minute |
| Schedule.SlotsFirstAndLast | App.tsx:221-228 | the first label is "09:00" and the last "18:00" |
| Schedule.SlotsIncrease | App.tsx:221-228 | the labels strictly increase as strings |
| Schedule.CurrentBookings | App.tsx:237-239 | the current bookings are exactly the bookings of the selected date |
| Schedule.CurrentBookingsNoOverlap | App.tsx:237-239 | the bookings of one date of an overlap-free collection are overlap-free |
| Schedule.CurrentBookingsAfterSave | App.tsx:237-239 | a saved booking joins the end of its date's current bookings; other dates' current bookings are unchanged |
| Schedule.StartsInSlot | App.tsx:432-434 | with no slot minute (NaN) no booking starts in the slot; on a well-formed start it holds iff the start minute lies in `[slot, slot + 30)` |
| Schedule.BookingAtSlot | App.tsx:431-435 | no result iff no booking starts in `[slot, slot + 30)`; otherwise the first such booking |
| Schedule.FirstOnDate | App.tsx:431-435 | the booking found for a slot is the first booking of the date, in the collection's order, that starts in the slot |
| Schedule.SlotSpan | App.tsx:438-443 | height 1 without a booking; for well-formed times `(end - start) / 30` in minutes, a fraction when not a multiple of 30; NaN when a time does not parse |
| Schedule.Duration | App.tsx:438-443 | the height is 1 without a booking, otherwise the span of the booking in slots |
| Schedule.SpanPositive | App.tsx:438-443 | for a booking with well-formed times and end after start the span is a positive finite number |
| Schedule.SpanInSlots | App.tsx:440-442 | a booking from minute `540 + 30 * i` to `540 + 30 * j` spans `j - i` slots |
| Schedule.SpanOfSlotBooking | App.tsx:438-443 | a booking from slot label `i` to slot label `j` spans `j - i` slots |
| Schedule.IsOwner | App.tsx:436 | the delete control is shown iff there is a booking and it was created by the signed-in user |
| Schedule.Row | App.tsx:427-444 | a row is labelled with its slot, is empty iff no current booking starts in the slot, otherwise shows the first such booking, the one `find` returns, with its span, and has the delete control iff the booking is the user's |
| Schedule.DaySchedule | App.tsx:427-444 | 19 rows labelled in slot order; row `i` shows the first current booking starting in slot `i` with its span; it is empty, with height 1, iff no booking of the selected date starts in the slot; the delete control only on the user's own bookings |
| Schedule.FormBookingIsAligned | App.tsx:621-667 | a booking made from the form's start and end lists with end after start starts on a slot boundary |
| Schedule.OneBookingPerSlot | App.tsx:431-435 | two slot-aligned bookings of one date in an overlap-free collection never start in the same slot |
| Schedule.RowShowsBooking | App.tsx:427-436 | with all of a date's bookings slot-aligned and no overlaps, each one is the booking shown in the row of its start slot |
| Store.InitialForm | App.tsx:85-92 | the initial form has empty title and organizer, today's date, 10:00 to 11:00 and the internal kind |
| Store.NewRecord | App.tsx:176-185 | the written document copies the form, records the creator's uid and the `bookedBy` name |
| Store.Screen | App.tsx:154-172 | the guards in their order: missing user, title or organizer; end not after start; an overlap with a booking of the same date |
| Store.BadIntervalRejected | App.tsx:157-160 | a candidate with `end <= start` is refused whatever bookings exist |
| Store.BadIntervalInMinutes | App.tsx:157-160 | for well-formed times the interval guard refuses exactly when the end minute is not after the start minute |
| Store.EmptyCollectionAccepts | App.tsx:162-167 | with no bookings a complete form with end after start is always accepted |
| Store.AcceptedKeepsNoOverlap | App.tsx:162-185 | an accepted record has end after start and keeps an overlap-free collection overlap-free |
| Store.BookingStore.constructor | App.tsx:83-92 | the page starts with no bookings and the initial form |
| Store.BookingStore.ReceiveSnapshot | App.tsx:108-112 | a snapshot replaces the collection and leaves the form alone |
| Store.BookingStore.EditForm | App.tsx:522-652 | a form input replaces the form and leaves the collection alone |
| Store.BookingStore.AddBooking | App.tsx:152-192 | a refused submission changes nothing and reports the first failing guard; a failed write changes nothing; a saved one appends the record and clears only title and organizer; an overlap-free collection stays overlap-free |
| Store.BookingStore.DeleteBooking | App.tsx:194-203 | without confirmation or on a failed write nothing changes; otherwise exactly the records with that identifier are gone, the rest keep their order, and an overlap-free collection stays overlap-free |

## Left out

- Firebase configuration, sign-in, sign-out and the auth listener (App.tsx:43-54, 94-100, 121-150) are left out: they are calls into a foreign SDK. The user is a parameter.
- The live query (App.tsx:102-119) is left out. Each snapshot it delivers is an argument of `ReceiveSnapshot`.
- Writes are abstract. `addDoc` is modelled as appending the record to `bookings`, and `deleteDoc` as removing the records with that identifier.
  - Success or failure is a parameter.
  - So is the identifier the store assigns.
  - The page itself only sees the change through the next snapshot. The delay, and other clients writing meanwhile, are not modelled.
- Toasts, `window.confirm` and the one-minute timer (App.tsx:158, 170, 174-190, 195-201, 230-235) are left out. A confirmation is a boolean parameter. The clock reading is a set of parameters.
- `next7Days` (App.tsx:206-219) is left out: it relies on JavaScript `Date` rollover and locale-dependent weekday names.
- Reading the clock in `getTodayString` (App.tsx:70) is left out. The year, the zero-based month and the day are parameters of `Calendar.DateString`.
- `Occupancy.IsRoomOccupiedNow` takes today's date and the time as separate inputs, because the page reads them from two different clock readings.
- Styling, `getStyleForType`, the CSS height `calc` and the date heading (App.tsx:254-267, 418-422, 457-460) are left out as presentation.
- types.ts is not part of this model: it repeats the booking shape without logic and without `userId`.
- TimeOfDay.ParseTime: accepts only `digits:digits` with both parts non-empty, and yields NaN (`None`) for anything else. JavaScript's `Number` is more lenient on inputs that never arise from the slot lists: it reads an empty part as 0, trims whitespace, and accepts signs, decimals and hexadecimal; and the destructuring `[h, m]` of the `split(":")` result ignores a third part. Every lemma about parsing is stated for well-formed labels, where the two agree.
- Schedule.Duration: the code does not round; a booking that is not a multiple of 30 minutes gets a fractional height, and so does the model.
- Schedule.SlotSpan: `diff / 30` is an exact real, not a rounded IEEE double (10 minutes is exactly one third). This only affects presentation.
- Store.BookingStore.ReceiveSnapshot: the live query's `orderBy("startTime", "asc")` (App.tsx:104) is not modelled. A snapshot is taken in whatever order it is delivered, and `AddBooking` appends at the end, so after a save the model's order is not start-time order. When two bookings of one date start in the same slot, the one shown follows the model's order (`Schedule.FirstOnDate`). For slot-aligned, overlap-free bookings the order does not matter: each booking is shown in its start slot (`Schedule.RowShowsBooking`).
- Text.LexLess: it compares Unicode scalar values, Dafny's `char`, while JavaScript compares UTF-16 code units. The two orders differ only for characters above U+FFFF, which never occur in the `HH:mm` times it is applied to.
- Years are unbounded naturals. `String(year)` is exact for the four-digit years the clock produces.
- Store.BookingStore.AddBooking: the browser's constraint validation of the form (App.tsx:509, 519, 534, 548, 676) runs before the handler and is not modelled. The page cannot submit an empty title or organizer, or a date before today (`min={getTodayString()}`). The model has no clock in `AddBooking` and so accepts past dates. The empty-field guard is modelled because the handler repeats it.
- The delete handler does not check ownership itself; only the visibility of the control does (App.tsx:436, 476). `DeleteBooking` follows the handler.
