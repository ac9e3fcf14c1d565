/** The booking form of the client: its state (the five text fields, whether a
    submission is in flight, the message shown under the form), the
    working-hours test, and the two event handlers that change the state.

    The form keeps every field as the text its input holds. The current instant
    `now` and the server's answer to the POST are parameters of the submit
    handler; rendering, navigation and the toast are not modelled. */
module BookingForm {
  import opened Wrappers
  import opened Text
  import opened Clock

  const RangeMessage := "Start time must be before end time."
  const PastMessage := "Cannot book an appointment in the past."
  const HoursMessage := "Booking hours are from 9 AM to 8 PM."
  const SuccessMessage := "Booking inserted successfully!"
  const FailureMessage := "Failed to insert booking. Please try again."

  /** The `name` attributes of the five inputs. */
  datatype Field = Service | DoctorName | StartTime | EndTime | Date

  /** The form's `formData` object. */
  datatype FormData = FormData(
    service: string, doctorName: string, startTime: string, endTime: string, date: string)

  const EmptyForm := FormData("", "", "", "", "")

  function Get(f: FormData, name: Field): string {
    match name
    case Service => f.service
    case DoctorName => f.doctorName
    case StartTime => f.startTime
    case EndTime => f.endTime
    case Date => f.date
  }

  /** `{ ...formData, [name]: value }`: the named field takes the new value and
      every other field keeps its own. */
  function With(f: FormData, name: Field, value: string): (g: FormData)
    ensures Get(g, name) == value
    ensures forall other :: other != name ==> Get(g, other) == Get(f, other)
  {
    match name
    case Service => f.(service := value)
    case DoctorName => f.(doctorName := value)
    case StartTime => f.(startTime := value)
    case EndTime => f.(endTime := value)
    case Date => f.(date := value)
  }

  /** `isWithinWorkingHours`: the number before the first colon lies in
      [9, 20); the minutes play no part. So for a well-formed time it holds
      exactly from 09:00 up to and including 19:59, and not at 20:00. */
  function WithinWorkingHours(t: string): (ok: bool)
    ensures WellFormedTime(t) ==> (ok <==> 9 <= HourOf(t) < 20)
    ensures WellFormedTime(t) ==> (ok <==> 9 * 60 <= TimeMinutes(t) < 20 * 60)
  {
    var ok :=
      match NumberValue(FirstField(t))
      case Some(h) => 9 <= h < 20
      case None => false;
    if TimeShape(t) then TimeFields(t); ok else ok
  }

  /** The boundary the form shows: the inputs allow 20:00 as an end time, the
      hours check refuses it, and 19:59 passes. */
  lemma EndOfDayBoundary()
    ensures !WithinWorkingHours("20:00")
    ensures WithinWorkingHours("19:59")
    ensures WithinWorkingHours("09:00") && !WithinWorkingHours("08:59")
  {
    assert WellFormedTime("20:00") && HourOf("20:00") == 20;
    assert WellFormedTime("19:59") && HourOf("19:59") == 19;
    assert WellFormedTime("09:00") && HourOf("09:00") == 9;
    assert WellFormedTime("08:59") && HourOf("08:59") == 8;
  }

  /** `new Date(`${date}T${start_time}`) < new Date()` for the form's text;
      an invalid date compares false. */
  predicate FormIsPast(f: FormData, now: int) {
    match SelectedMoment(f.date, f.startTime)
    case Some(t) => t < now
    case None => false
  }

  /** The checks of `handleSubmit`, in their order: the message of the first
      that fails, or `None` when the form may be posted. */
  function SubmitCheck(f: FormData, now: int): (m: Option<string>)
    ensures !LexLess(f.startTime, f.endTime) ==> m == Some(RangeMessage)
    ensures LexLess(f.startTime, f.endTime) && FormIsPast(f, now) ==> m == Some(PastMessage)
    ensures m == None <==>
      LexLess(f.startTime, f.endTime) && !FormIsPast(f, now)
      && WithinWorkingHours(f.startTime) && WithinWorkingHours(f.endTime)
    ensures
      (LexLess(f.startTime, f.endTime) && !FormIsPast(f, now)
       && !(WithinWorkingHours(f.startTime) && WithinWorkingHours(f.endTime)))
      ==> m == Some(HoursMessage)
    ensures m.Some? ==> m.value in {RangeMessage, PastMessage, HoursMessage}
  {
    if !LexLess(f.startTime, f.endTime) then Some(RangeMessage)
    else if FormIsPast(f, now) then Some(PastMessage)
    else if !WithinWorkingHours(f.startTime) || !WithinWorkingHours(f.endTime) then Some(HoursMessage)
    else None
  }

  /** For well-formed fields the form lets a booking through exactly when it
      starts before it ends, does not start in the past, and lies within
      [09:00, 20:00). */
  lemma SubmitCheckMeaning(f: FormData, now: int)
    requires WellFormedTime(f.startTime) && WellFormedTime(f.endTime) && WellFormedDate(f.date)
    ensures SubmitCheck(f, now) == None <==>
      var s, e := TimeMinutes(f.startTime), TimeMinutes(f.endTime);
      s < e && !IsPast(DayOrdinal(f.date), s, now) && 9 * 60 <= s && e < 20 * 60
  {
    LexLessMatchesMinutes(f.startTime, f.endTime);
  }

  /** What the server answered to the POST: a status with the `message` of its
      JSON body, or no response at all (a network failure). */
  datatype PostAnswer = Responded(status: int, message: string) | NoResponse

  /** The form and the message after the POST settles, from the form as posted:
      axios resolves on a 2xx status and rejects otherwise. A 201 clears all five
      fields; a 409 shows the server's message; any other failure the fixed
      text; a 2xx other than 201 leaves both as they were at the POST. */
  function AfterPost(f: FormData, answer: PostAnswer): (out: (FormData, string))
    ensures answer.Responded? && answer.status == 201 ==> out == (EmptyForm, SuccessMessage)
    ensures answer.Responded? && answer.status == 409 ==> out == (f, answer.message)
    ensures (answer.NoResponse? || !(200 <= answer.status < 300 || answer.status == 409)) ==>
      out == (f, FailureMessage)
    ensures answer.Responded? && 200 <= answer.status < 300 && answer.status != 201 ==> out == (f, "")
    ensures out.0 == f || out.0 == EmptyForm
  {
    match answer
    case Responded(status, message) =>
      if 200 <= status < 300 then
        if status == 201 then (EmptyForm, SuccessMessage) else (f, "")
      else if status == 409 then (f, message)
      else (f, FailureMessage)
    case NoResponse => (f, FailureMessage)
  }

  /** The component's state. */
  class FormState {
    var formData: FormData
    var isSubmitting: bool
    var responseMessage: string

    /** The state of a freshly mounted form. */
    constructor ()
      ensures formData == EmptyForm && !isSubmitting && responseMessage == ""
    {
      formData := EmptyForm;
      isSubmitting := false;
      responseMessage := "";
    }

    /** `handleChange`: the input named `name` now holds `value`. */
    method HandleChange(name: Field, value: string)
      modifies this
      ensures formData == With(old(formData), name, value)
      ensures isSubmitting == old(isSubmitting) && responseMessage == old(responseMessage)
    {
      formData := With(formData, name, value);
    }

    /** `handleSubmit`: the three checks in order, each failing one setting its
        message and returning without a request; otherwise the form is posted
        (`sent` is what was posted) and `answer` is what came back. Whatever
        happens, the form is no longer submitting at the end. */
    method HandleSubmit(now: int, answer: PostAnswer) returns (sent: Option<FormData>)
      modifies this
      ensures !isSubmitting
      ensures sent.Some? <==> SubmitCheck(old(formData), now) == None
      ensures sent.Some? ==> sent.value == old(formData)
      ensures sent.None? ==>
        formData == old(formData) && responseMessage == SubmitCheck(old(formData), now).value
      ensures sent.Some? ==> (formData, responseMessage) == AfterPost(old(formData), answer)
    {
      isSubmitting := true;
      responseMessage := "";

      if !LexLess(formData.startTime, formData.endTime) {
        responseMessage := RangeMessage;
        isSubmitting := false;
        return None;
      }

      var selected := SelectedMoment(formData.date, formData.startTime);
      if selected.Some? && selected.value < now {
        responseMessage := PastMessage;
        isSubmitting := false;
        return None;
      }

      if !WithinWorkingHours(formData.startTime) || !WithinWorkingHours(formData.endTime) {
        responseMessage := HoursMessage;
        isSubmitting := false;
        return None;
      }

      sent := Some(formData);
      match answer {
        case Responded(status, message) =>
          if 200 <= status < 300 {
            if status == 201 {
              responseMessage := SuccessMessage;
              formData := EmptyForm;
            }
          } else if status == 409 {
            responseMessage := message;
          } else {
            responseMessage := FailureMessage;
          }
        case NoResponse =>
          responseMessage := FailureMessage;
      }
      isSubmitting := false;
    }
  }
}
