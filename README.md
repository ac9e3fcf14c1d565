# Doctor booking: a verified model of the booking logic

This project models the booking logic of a small appointment system in Dafny.
Clients book a doctor for a time slot on a date. The model covers three places
where that logic lives:

- **The backend booking service** (`backend/app/index.js`) exposes three routes.
  - `POST /api/bookings` rejects a booking whose start lies in the past (400).
    It then rejects a start that is not before the end (400). Then it asks the
    `bookings` table for a row of the same doctor and date whose times conflict
    (409). Only when all three pass does it insert one row and answer 201.
  - `GET /api/bookings` lists every row.
  - `GET /api/bookings/:id` returns the first row with that id, or 404.
  - `BookingService` models the table as a class `BookingStore`. It holds a
    sequence of rows and the next AUTO_INCREMENT id. The conflict query's WHERE
    clause becomes the predicate `SqlConflict`, and the handler becomes the pure
    function `CreateStep`, which the method `BookingStore.Create` is proved
    against. Times are minutes since midnight, dates are day ordinals
    (1970-01-01 is day 0), and the current instant `now` is a parameter in
    milliseconds.
- **The client booking form** (`frontend/app/src/components/BookingForm.tsx`).
  - `handleChange` replaces one field of the form.
  - `handleSubmit` checks the range first, then the past, then working hours.
    Each failing check shows its own message and sends nothing. Otherwise the
    form is posted and the answer is shown: 201 clears the form, 409 shows the
    server's message, any other error shows a fixed failure text, and any other
    2xx status leaves the form and an empty message.
  - `BookingForm` models the component state as a class `FormState`. The fields
    stay text, as the inputs hold them. The current instant and the server's
    answer are parameters of `HandleSubmit`.
- **The list's time display** (`frontend/app/src/components/BookingList.tsx`).
  `convert24HourTimeTo12HourFormat` becomes `BookingList.To12Hour`.

Supporting modules:

- `Text` models the JavaScript string primitives the code uses: string `<`,
  `includes`, `split(':')`, `Number`, `parseInt`, `%` and `String(n)`.
- `Clock` models `HH:MM` times, `YYYY-MM-DD` dates and instants.
- `ClientServer` relates the form's checks to the server's guards.

Points where the code's behaviour is easy to misread:

- The server does not enforce the 09:00–20:00 window. Only the form does.
- A successful create answers 201 with a fixed text, not with the stored booking.
- The conflict query fetches every conflicting row. A non-empty result means 409.
- The form checks the range before the past. The server checks the past first.
  `ClientServer.InvertedPastBookingMessages` shows the two orders giving
  different messages.

## Model

| member | source | states |
|---|---|---|
| `BookingService.SqlConflict` | backend/app/index.js:65-76 | The WHERE clause. For a request whose start is not after its end, it holds exactly when the doctor and date match and the half-open intervals overlap, so its second disjunct adds nothing. A different doctor or date never conflicts. |
| `BookingService.ConflictingRows` | backend/app/index.js:76 | The conflict query returns only rows of the table that satisfy the WHERE clause, and it returns every such row. |
| `BookingService.CreateStep` | backend/app/index.js:53-85 | POST order and outcomes. A start in the past gives 400 with the past message and leaves the table unchanged, even when the range is also inverted. Otherwise start >= end gives 400 with the range message and leaves the table unchanged. Otherwise, 409 with the conflict message when some row conflicts, table unchanged. Otherwise 201: exactly one row is appended, carrying the five request fields and the next id, and the old rows are untouched. The status is always 201, 400 or 409. |
| `BookingService.Lookup` | backend/app/index.js:39-45 | GET by id gives 404 with "Booking not found" exactly when no row has that id. Otherwise it gives a row with that id, and no earlier row has it. |
| `BookingService.ConflictIsSymmetric` | backend/app/index.js:69-72 | For two bookings whose starts are not after their ends, the check conflicts whichever of the two is the existing row. |
| `BookingService.TouchingNeverConflicts` | backend/app/index.js:70-71 | Bookings that only touch (one ends when the other starts) never conflict, in either order. |
| `BookingService.CreatePreservesNoDoubleBooking` | backend/app/index.js:65-85 | If no two rows of the same doctor and date overlap before a sequential create, none overlap after it. |
| `BookingService.CreatePreservesValid` | backend/app/index.js:82-83 | A create keeps row ids unique and increasing in insertion order, and all below the next id. |
| `BookingService.CreateThenLookup` | backend/app/index.js:39-45 | After a successful create, GET of the assigned id returns the new row. That row equals the request in all five fields. |
| `BookingService.BookingStore.Create` | backend/app/index.js:53-85 | The handler's early-return sequence on the store. Its reply and the new table are those `CreateStep` gives for the old table. It keeps ids valid and preserves the absence of double bookings. |
| `BookingService.BookingStore.ListBookings` | backend/app/index.js:26-29 | List-all returns every row in table order and changes nothing. |
| `BookingService.BookingStore.GetBooking` | backend/app/index.js:36-45 | Get-by-id answers what `Lookup` gives for the current rows and changes nothing. |
| `Clock.LexLessMatchesMinutes` | backend/app/index.js:62 | For zero-padded `HH:MM` strings, JavaScript's string `<` holds exactly when the first time is earlier. So the `start_time >= end_time` string guard is the minute-order guard. |
| `Clock.MomentOrderOnOneDay` | frontend/app/src/components/BookingForm.tsx:53-55 | On one date, ``new Date(`${date}T${time}`)`` gives the earlier instant to the earlier time. This agrees with JavaScript's string `<` on the two `HH:MM` texts. |
| `Clock.MidnightFollowsLastMinute` | frontend/app/src/components/BookingForm.tsx:53-55 | Midnight of the next day is exactly one minute after 23:59 of the day before, so instants run on across the date change. |
| `Clock.CalendarRollover` | frontend/app/src/components/BookingForm.tsx:53 | Day ordinals have no gaps or overlaps at month ends. The first of the next month, or 1 January after 31 December, is one day after the month's last day. February has 29 days exactly in Gregorian leap years. |
| `Clock.ShiftedYearLength` | frontend/app/src/components/BookingForm.tsx:53 | From 1 March of one year to 1 March of the next there are 366 days when the later year is a Gregorian leap year, and 365 otherwise. |
| `Clock.EpochIsDayZero` | backend/app/index.js:56-58 | 1970-01-01 is day 0, the day the millisecond count of `new Date()` starts from. |
| `Text.FirstField` | frontend/app/src/components/BookingForm.tsx:36 | `split(':')[0]` is a prefix of the text with no colon. It is followed by a colon whenever it is shorter than the text. |
| `Text.SecondField` | frontend/app/src/components/BookingList.tsx:22 | `split(':')[1]` is undefined exactly when the text has no colon. Otherwise it is the text right after the first colon, running up to the next colon or the end of the text. |
| `Text.ParseInt` | frontend/app/src/components/BookingList.tsx:24 | `parseInt(s, 10)` of a digit string is its value, exact at any length (see Left out for values above 2^53). A negative result needs a leading minus sign. |
| `Text.JsRem` | frontend/app/src/components/BookingList.tsx:28 | JavaScript's `%` lies strictly between -12 and 12 and takes the dividend's sign. It is the Euclidean remainder for a non-negative dividend. |
| `Text.DecimalRoundTrip` | frontend/app/src/components/BookingList.tsx:30 | Reading back the decimal text `String(n)` writes gives `n` again. |
| `Text.IntStringReadsBack` | frontend/app/src/components/BookingList.tsx:30 | The text `${hours}` writes for an integer reads back as that integer. It is digits without a leading zero, after a minus sign when the number is negative. |
| `BookingForm.With` | frontend/app/src/components/BookingForm.tsx:29-32 | The spread update sets the named field to the new value. Every other field keeps its old value. |
| `BookingForm.WithinWorkingHours` | frontend/app/src/components/BookingForm.tsx:35-38 | For a well-formed time, it holds exactly when the hour is in [9, 20), whatever the minutes. Equivalently, the time is in [09:00, 20:00). |
| `BookingForm.EndOfDayBoundary` | frontend/app/src/components/BookingForm.tsx:35-38 | 20:00 is refused although the inputs allow it as a maximum. 19:59 and 09:00 pass, 08:59 does not. |
| `BookingForm.SubmitCheck` | frontend/app/src/components/BookingForm.tsx:45-66 | The check order. A start not before the end (string order) gives the range message, whatever else holds. Otherwise a past start gives the past message. Otherwise a start or end outside working hours gives the hours message. The form may be posted exactly when all three checks pass. Every failure message is one of the three. |
| `BookingForm.SubmitCheckMeaning` | frontend/app/src/components/BookingForm.tsx:45-66 | For well-formed fields the form passes exactly when start < end in minutes, the start is not in the past, the start is at 09:00 or later and the end is before 20:00. |
| `BookingForm.AfterPost` | frontend/app/src/components/BookingForm.tsx:68-91 | 201 clears all five fields and shows the success text. 409 keeps the form and shows the server's `message`. A non-2xx status other than 409, or no response, shows "Failed to insert booking. Please try again.". Any other 2xx status keeps the form with an empty message, the one cleared when the submission started. The form is either kept or emptied. |
| `BookingForm.FormState.constructor` | frontend/app/src/components/BookingForm.tsx:9-18 | A new form has five empty fields, is not submitting and shows no message. |
| `BookingForm.FormState.HandleChange` | frontend/app/src/components/BookingForm.tsx:27-33 | Only the named field changes. The submitting flag and the message stay as they were. |
| `BookingForm.FormState.HandleSubmit` | frontend/app/src/components/BookingForm.tsx:40-92 | A POST is sent exactly when `SubmitCheck` passes, and it carries the form as it was. On a failed check the form is unchanged and the check's message is shown. After a POST the form and message are what `AfterPost` gives. In every outcome `isSubmitting` ends false. |
| `BookingList.DisplayHour` | frontend/app/src/components/BookingList.tsx:28 | `hours % 12 \|\| 12`: NaN gives 12. A non-negative hour gives a value in 1..12 on the same 12-hour dial (0→12, 12→12, 13→1). |
| `BookingList.PassThrough` | frontend/app/src/components/BookingList.tsx:18-20 | Text containing "AM" or "PM" is returned unchanged. |
| `BookingList.MeridiemSuffix` | frontend/app/src/components/BookingList.tsx:26 | Otherwise the result ends in "PM" exactly when the parsed hour is at least 12, and in "AM" in every other case, NaN included. A space precedes the suffix. |
| `BookingList.MinutesCopied` | frontend/app/src/components/BookingList.tsx:22-30 | The second colon-separated field is copied verbatim between the colon and the space before the suffix. With no colon it is the text `undefined`. |
| `BookingList.DropsSeconds` | frontend/app/src/components/BookingList.tsx:22 | Anything after a second colon is dropped: `HH:MM:SS` shows as `HH:MM` does. |
| `BookingList.WellFormedConverted` | frontend/app/src/components/BookingList.tsx:22-30 | A well-formed `HH:MM` shows as its 12-hour dial hour without a leading zero, a colon, its minute digits, a space and the suffix. |
| `BookingList.To12HourRoundTrip` | frontend/app/src/components/BookingList.tsx:16-31 | Read back as a 12-hour time (`Parse12Hour`), the display of a well-formed `HH:MM` gives the same minute of the day. |
| `BookingList.LeadingZeroDropped` | frontend/app/src/components/BookingList.tsx:24 | "09:05" shows as "9:05 AM". |
| `BookingList.MidnightReadsTwelve` | frontend/app/src/components/BookingList.tsx:28 | "00:15" shows as "12:15 AM". |
| `BookingList.NoonReadsTwelve` | frontend/app/src/components/BookingList.tsx:26-28 | "12:00" shows as "12:00 PM". |
| `BookingList.AfternoonCountsFromOne` | frontend/app/src/components/BookingList.tsx:28 | "13:30" shows as "1:30 PM". |
| `ClientServer.FormApprovedPassesServerGuards` | backend/app/index.js:56-64 | A well-formed form that the client lets through at an instant passes the server's past and range guards at that instant. The server then answers 201 or 409, never 400. |
| `ClientServer.InvertedPastBookingMessages` | backend/app/index.js:56-64 | Take a past booking whose end is not after its start. The form reports the range message and the server the past message, leaving the table unchanged. |

## Left out

- Express routing, CORS, body parsing, `app.listen` and console logging are left out: they are plumbing around the handlers.
- The MySQL connection pool and SQL execution are left out. The table is an in-memory sequence and the WHERE clause a predicate.
- The 500 replies of all three routes are left out. They arise only when the database call fails.
- `BookingService.SqlConflict`: compares `doctor_name` exactly. MySQL's default collation would also match names that differ only in letter case or trailing spaces.
- The check-then-insert race between concurrent POSTs is not modelled. The model is sequential, and the no-double-booking invariant is stated for sequential creates only.
- Server-side enforcement of working hours is left out, because the backend does not have any.
- `BookingService.CreateStep`: takes times as minutes and dates as day ordinals. On the server, an unparsable `date`/`start_time` gives an invalid `Date`, so the past check passes. Unpadded time text would then be compared as strings. Neither is modelled. `Clock.LexLessMatchesMinutes` covers the zero-padded texts the form sends.
- Time zones are left out: every instant is local time, as the engine reads ``${date}T${time}``. `now` is the current local instant in milliseconds.
- `BookingService.Lookup`: takes the id as a number. The route receives it as URL text, which MySQL converts.
- `Clock.SelectedMoment`: reads only `HH:MM` times. The engine also accepts `HH:MM:SS`, `HH:MM:SS.sss` and `24:00`, which give `None` here. The time inputs never produce them. It accepts days 1 to 31 in every month, and a day past the month's end rolls over into the next month, as V8 does. Other engines may give an invalid date instead. The engine's non-ISO fallback formats are not modelled.
- `Text.NumberValue`: whitespace, signs, decimals, exponents and hexadecimal are all NaN here. A time input never produces them. Digit strings above 2^53 also stay exact here instead of being rounded to a double. That cannot move a value across the 9 and 20 bounds of the working-hours test.
- `Text.ParseInt`: does not skip leading whitespace. Digit strings above 2^53 stay exact here, while JavaScript rounds them to the nearest double, so such an hour can show a different dial hour (`"9007199254740993:00"` shows as `8:00 PM` in the browser and as `9:00 PM` here). A time value never has such an hour.
- `Text.IntString`: never uses exponent notation and keeps full integer precision. The displayed hours are small.
- `Text.LexLess`: compares characters as code points, not as UTF-16 code units. The two orders differ only outside the Basic Multilingual Plane.
- React rendering, hooks, the axios transport, `router.push`, the toast and the Cancel button are UI and network, so they are left out. The server's answer is a parameter of `HandleSubmit`.
- The browser's own constraint validation is left out: the `required` attributes and the `min`/`max` bounds of the inputs. `HandleSubmit` models the handler as written.
- The list's `toLocaleDateString` rendering of the date is locale formatting, so it is left out.
- `frontend/app/src/app/page.tsx`, `layout.tsx`, `booking/page.tsx` and `booking/[id]/page.tsx` are not part of this model. They are presentation and data fetching with no logic of their own.
