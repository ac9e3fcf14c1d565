/** How the form's checks and the server's guards fit together when the form
    posts its fields to POST /api/bookings: the wire carries the `HH:MM` and
    `YYYY-MM-DD` text, which the server model reads as minutes and a day
    ordinal. */
module ClientServer {
  import opened Wrappers
  import opened Clock
  import BookingForm
  import BookingService

  /** Fields as the time and date inputs produce them. */
  predicate WellFormedForm(f: BookingForm.FormData) {
    WellFormedTime(f.startTime) && WellFormedTime(f.endTime) && WellFormedDate(f.date)
  }

  /** The request the server receives when the form posts `f`. */
  function WireRequest(f: BookingForm.FormData): (r: BookingService.BookingRequest)
    requires WellFormedForm(f)
    ensures r.service == f.service && r.doctorName == f.doctorName && r.date == DayOrdinal(f.date)
    ensures 0 <= r.startTime < MinutesPerDay && 0 <= r.endTime < MinutesPerDay
    ensures TimeText(r.startTime) == f.startTime && TimeText(r.endTime) == f.endTime
  {
    TimeTextOfMinutes(f.startTime);
    TimeTextOfMinutes(f.endTime);
    BookingService.BookingRequest(
      f.service, f.doctorName, TimeMinutes(f.startTime), TimeMinutes(f.endTime), DayOrdinal(f.date))
  }

  /** A form the client lets through at instant `now` passes the server's past
      and range guards at that instant: the server answers 201 or 409, never 400. */
  lemma FormApprovedPassesServerGuards(f: BookingForm.FormData, now: int, t: BookingService.Table)
    requires WellFormedForm(f) && BookingForm.SubmitCheck(f, now) == None
    ensures BookingService.CreateStep(t, WireRequest(f), now).0.status in {201, 409}
  {
    BookingForm.SubmitCheckMeaning(f, now);
  }

  /** The two sides check in different orders: for a booking in the past whose
      end is not after its start, the form reports the range and the server the past. */
  lemma InvertedPastBookingMessages(f: BookingForm.FormData, now: int, t: BookingService.Table)
    requires WellFormedForm(f)
    requires TimeMinutes(f.endTime) <= TimeMinutes(f.startTime)
    requires IsPast(DayOrdinal(f.date), TimeMinutes(f.startTime), now)
    ensures BookingForm.SubmitCheck(f, now) == Some(BookingForm.RangeMessage)
    ensures BookingService.CreateStep(t, WireRequest(f), now)
      == (BookingService.Reply(400, BookingService.PastMessage), t)
  {
    LexLessMatchesMinutes(f.startTime, f.endTime);
  }
}
