# Room-availability window of the hotel booking backend

This project models the one piece of stateful logic in the hotel booking
REST backend: the rolling window of open days each room carries
(`avaliableDates`), how room creation seeds it, and how a booking rotates it.

- `dates.dfy` (module `Dates`) — the date-range generator `getDates` of
  `src/helpers/date.post.js`, plus the conversions between instants and
  calendar days. A JavaScript `Date` is its `getTime()` value in integer
  milliseconds. A stored `YYYY-MM-DD` string is its UTC day number:
  `new Date("YYYY-MM-DD")` is UTC midnight (`MidnightOf`), and
  `toISOString().split('T')[0]` is floor division by 86 400 000 ms (`DayOf`).
- `sequences.dfy` (module `Sequences`) — `indexOf` followed by `splice(index, 1)`
  (`RemoveFirst`), that step repeated over a list (`RemoveEach`), and the
  subsequence and multiset facts used to reason about them.
- `rotation.dfy` (module `Rotation`) — the window update of the
  `PUT /reserved/:rid` handler (`Rotate`) and its properties.
- `rooms.dfy` (module `Rooms`) — the room map and the reservation list. It
  holds the booking handler (`Book`) with its guards, and room creation
  (`CreateRoom`) with the duplicate-number check and the 20-day seed.
- `wrappers.dfy` (module `Wrappers`) — `Option` (an argument that may be
  `undefined`) and `Result` (a handler's answer).

The clock (`new Date()`) is the parameter `now`. The database's answers become
plain data: the room map, the reservation list, the fresh `_id` of a new room
(`newId`), and whether a path id can be cast to an ObjectId (`isObjectId`).

What the proofs show about the booking rotation:

- The booked day is removed first. Then the first remaining copy of each stale
  entry is removed. A stale entry is a day whose UTC midnight is more than 24 h
  before `now`. Because of that, yesterday's date counts as stale unless `now`
  is exactly midnight (`StaleDays`).
- The survivors keep their order. After them come consecutive days starting
  the day after the LAST stored entry: one day if nothing was stale, otherwise
  one per stale entry.
- The window is not always size-preserving. Take a window with no repeated
  days that has stale entries, and book a day that is not itself stale. The
  booked day is removed but not replaced, so the window shrinks by one
  (`LengthShrinksWithStale`). When the booked day is itself stale, the
  length is kept (`LengthKeptWhenBookedStale`).
- A sorted window stays sorted. Replacements start after the last stored
  entry, not the latest one, so an unsorted window can get the booked day
  back (`UnsortedWindowReadmitsBookedDay`).
- Booking has no invalid-identifier answer. A malformed room id reaches
  `findById` unchecked, and the answer is a 500, never a 400 (`Book`).

## Model

| member | source | states |
|---|---|---|
| `Dates.DateRange` | src/helpers/date.post.js:6-15 | `count` instants (none when `count <= 0`), instant `i` at `start + i * 24h`, so the first is `start` and the sequence rises by exactly one day |
| `Dates.GetDates` | src/helpers/date.post.js:1-16 | the loop yields `limitDays` instants (empty for `limitDays <= 0`; one when `limitDays` is absent). The first is `startDate`, or `now` when absent. Each is 24 h after its predecessor, and instant `i` falls on UTC day `startDay + i` |
| `Dates.DayOfShift` | src/helpers/date.post.js:12 | advancing an instant by `k` days advances its UTC day by exactly `k` |
| `Dates.DayOfMidnight` | src/routes/rooms.routes.js:63 | formatting a stored day's UTC midnight gives back that day |
| `Dates.FormattedRange` | src/routes/rooms.routes.js:95 | formatting the generated instants yields consecutive UTC days starting at the start instant's day |
| `Sequences.IndexOf` | src/routes/rooms.routes.js:75 | -1 exactly when the value is absent, otherwise the position of its first occurrence |
| `Sequences.RemoveFirstContents` | src/routes/rooms.routes.js:75-78 | the indexOf/splice step removes exactly one copy of a present value (length drops by one) and leaves the array as it was when the value is absent |
| `Sequences.RemoveEachContents` | src/routes/rooms.routes.js:87-92 | the loop over `oldDates` removes one copy of each listed value, as far as copies remain |
| `Sequences.RemoveFirstSubseq` | src/routes/rooms.routes.js:75-78 | the splice keeps the remaining entries in their order |
| `Sequences.RemoveEachSubseq` | src/routes/rooms.routes.js:87-92 | repeated splicing keeps the remaining entries in their order |
| `Rotation.IsStale` | src/routes/rooms.routes.js:67-70 | the stale test `new Date(oldDate) < yesterday`; its calendar meaning is stated by `Rotation.StaleDays` |
| `Rotation.StaleEntries` | src/routes/rooms.routes.js:67-70 | the `oldDates` filter: never longer than the window; its contents (exactly the stale entries, with multiplicity) are stated by `Rotation.StaleEntriesContents` |
| `Rotation.Rotate` | src/routes/rooms.routes.js:58-97 | the window the booking handler writes back; characterised by `Rotation.RotateShape` (survivors, then consecutive replacement days) and `Rotation.SurvivorsContents` (order kept, booked day and stale entries removed) |
| `Sequences.RemoveFirst` | src/routes/rooms.routes.js:75-78 | the indexOf/splice step; characterised by `Sequences.RemoveFirstContents` and `Sequences.RemoveFirstSubseq` |
| `Sequences.RemoveEach` | src/routes/rooms.routes.js:87-92 | the splice loop over `oldDates`; characterised by `Sequences.RemoveEachContents` and `Sequences.RemoveEachSubseq` |
| `Dates.DayOf` | src/routes/rooms.routes.js:95 | `toISOString().split('T')[0]` as the UTC day of an instant; characterised by `Dates.DayOfShift` and `Dates.DayOfMidnight` |
| `Dates.MidnightOf` | src/routes/rooms.routes.js:63 | `new Date("YYYY-MM-DD")` as UTC midnight of the day; `Dates.DayOfMidnight` states that formatting it gives the day back |
| `Dates.FormatDays` | src/routes/rooms.routes.js:95 | the `toISOString` map over generated instants: same length, element `i` is the UTC day of instant `i`; `Dates.FormattedRange` states the result for a generated range |
| `Rotation.StaleEntriesContents` | src/routes/rooms.routes.js:67-70 | `oldDates` holds exactly the window entries whose midnight is before `now - 24h`, each as often as the window holds it |
| `Rotation.StaleDays` | src/routes/rooms.routes.js:67-70 | in calendar terms a day is stale iff it is before yesterday, or it is yesterday and `now` is not exactly UTC midnight |
| `Rotation.RotateShape` | src/routes/rooms.routes.js:58-97 | both branches give: survivors, then `Replacements` consecutive days from the day after the last stored entry (1 if nothing is stale, else the number of stale entries) |
| `Rotation.SurvivorsContents` | src/routes/rooms.routes.js:73-93 | survivors are a subsequence of the old window. They equal the old window minus one copy of the booked day, then minus one copy of each stale entry |
| `Rotation.RotateLength` | src/routes/rooms.routes.js:95-97 | new length = survivors + replacements |
| `Rotation.SurvivorsSize` | src/routes/rooms.routes.js:73-93 | for a window without repeated days, survivors = old length − 1 − #stale, plus 1 when the booked day is itself stale |
| `Rotation.RotateIncreasing` | src/routes/rooms.routes.js:61-97 | a strictly increasing window stays strictly increasing |
| `Rotation.LengthWithoutStale` | src/routes/rooms.routes.js:73-78 | with no stale entries (no repeated days) the length is preserved and the booked day is not among the survivors |
| `Rotation.LengthShrinksWithStale` | src/routes/rooms.routes.js:79-93 | with stale entries and a booked day that is not stale, the window shrinks by exactly one |
| `Rotation.LengthKeptWhenBookedStale` | src/routes/rooms.routes.js:79-93 | when the booked day is itself stale, the length is preserved |
| `Rotation.BookedDayLeavesSortedWindow` | src/routes/rooms.routes.js:61-97 | in a strictly increasing window the booked day is absent after the rotation |
| `Rotation.UnsortedWindowReadmitsBookedDay` | src/routes/rooms.routes.js:63-64 | booking day 6 in the unsorted window `[6, 5]` yields `[5, 6]`: the booked day comes back, because replacements start after the last stored entry |
| `Rotation.FreshWindowRollsByOne` | src/routes/rooms.routes.js:61-97 | a 20-day window from today, booked on today at today's midnight, becomes the 20 days from tomorrow |
| `Rooms.Book` | src/routes/rooms.routes.js:46-107 | a malformed id gives a 500, a missing room a 404, and a day not in the window "date not available". Each failure leaves rooms and reservations unchanged. Success returns the booked day and implies the window was non-empty |
| `Rooms.BookFrame` | src/routes/rooms.routes.js:58-103 | a booking of a castable, existing room for a day in its window succeeds with that day. The set of room ids is unchanged and every other room is unchanged. The booked room differs only in its window, which is replaced by the rotated window. Exactly one reservation `{userId, roomId, date}` is appended |
| `Rooms.BookPreservesValid` | src/routes/rooms.routes.js:97-99 | booking keeps room numbers unique and every window strictly increasing |
| `Rooms.BookedDayNotBookableAgain` | src/routes/rooms.routes.js:54-56 | in a valid store, a day just booked is refused ("date not available") to any later request for that room |
| `Rooms.CreateRoom` | src/routes/rooms.routes.js:110-133 | validator errors give a 400 with the messages, and an existing `numberRoom` gives a 400. Both leave the store unchanged. Otherwise exactly the new room is added, with the request's fields and the 20 consecutive UTC days from today; reservations are unchanged |
| `Rooms.CreatePreservesValid` | src/routes/rooms.routes.js:114-124 | creation keeps room numbers unique and windows strictly increasing |

## Left out

- The field validators (`express-validator` rules for title, price and the other fields) are external. Their outcome is the parameter `validationErrors`.
- `verifyToken`, `checkRoles` and `avoidConsecutiveSpaces` are external middleware. The model starts after them.
- The other routes are not modelled: listing, fetching, the admin edit (an arbitrary `$set` of the request body) and deletion in `src/routes/rooms.routes.js`. The same goes for `src/routes/reserved.routes.js`, which only delegates to database queries.
- `numberRoom` and `capacity` are JavaScript numbers (doubles) in the schema and only checked with `isNumeric()`, so a value like `1.5` is accepted; the model types them as integers (`Rooms.Room`, `Rooms.RoomFields`) and does not model fractional or non-finite room numbers or capacities.
- Mongoose is not modelled: schemas, casting, pagination, and a failing write (any of which gives a 500). `ObjectId` castability is the opaque parameter `isObjectId`. The fresh `_id` of a created room is a parameter assumed unused (`CreateRoom` requires it).
- Concurrency is not modelled. The window update and the reservation insert are two separate writes, so two bookings can race and a crash can fall between them. The model runs one request at a time, atomically.
- Date strings are not parsed. The request's `date` and the stored entries are compared as day numbers. The source compares strings, which is the same thing for the canonical `YYYY-MM-DD` strings the backend itself writes; a request string in any other spelling never matches and is not modelled.
- Instants outside the JavaScript `Date` range (±8.64·10^15 ms) are not modelled. There `toISOString` throws and the answer is a 500. `limitDays` values that are not integers are not modelled either.
- The raw generated instants that creation also returns in its response (`message: dateArray`) are not modelled.
