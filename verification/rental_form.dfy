/** The rental form: its validation against the existing rentals, and the rental
    it submits. */
module RentalForm {
  import opened Optional
  import opened JsText
  import opened DateUtils
  import opened Rentals
  import opened FormErrors
  import DataService

  /** The error keys `customerId`, `carId`, `startDate`, `days` and `dateRange`. */
  datatype Field = CustomerIdField | CarIdField | StartDateField | DaysField | DateRangeField

  /** The form state. `None` is an empty selection or an empty date input; the
      day count is the raw text of its input. */
  datatype FormData = FormData(customerId: Option<Id>, carId: Option<Id>, startDate: Option<int>, days: string)

  /** The state the form starts from and is reset to. */
  const EmptyForm: FormData := FormData(None, None, None, "")

  /** The candidate end: the start moved by `parseInt(days, 10)`; a `NaN` day count
      makes it the Invalid Date. */
  function CandidateEnd(start: int, days: string): (e: Instant)
    ensures ParseInt(days).Some? ==> e == Date(start + ParseInt(days).value)
    ensures ParseInt(days).None? ==> e == InvalidDate
  {
    match ParseInt(days)
    case Some(n) => AddDaysToDate(Date(start), n)
    case None => InvalidDate
  }

  /** An existing rental clashes: same car, and `isDateRangeOverlapping` of the
      candidate range and the rental's period. Every rental is checked: the form
      has no self-exclusion. */
  predicate Clashes(carId: Id, start: int, days: string, r: Rental) {
    r.carId == carId &&
    IsDateRangeOverlapping(Date(start), CandidateEnd(start, days), Date(r.startDate), GetEndDate(r))
  }

  predicate CarBooked(carId: Id, start: int, days: string, rentals: seq<Rental>) {
    exists i :: 0 <= i < |rentals| && Clashes(carId, start, days, rentals[i])
  }

  /** `!formData.days || parseInt(formData.days, 10) <= 0`; `NaN <= 0` is false. */
  predicate DaysRejectedAsWritten(days: string) {
    days == "" || (ParseInt(days).Some? && ParseInt(days).value <= 0)
  }

  /** The availability check runs only when car, start date and day count are all filled in. */
  predicate CheckRuns(f: FormData) {
    f.carId.Some? && f.startDate.Some? && f.days != ""
  }

  /** `validate` as written. */
  function ValidateAsWritten(f: FormData, rentals: seq<Rental>): (errors: map<Field, Problem>)
    ensures CustomerIdField in errors <==> f.customerId.None?
    ensures CarIdField in errors <==> f.carId.None?
    ensures StartDateField in errors <==> f.startDate.None?
    ensures DaysField in errors <==> DaysRejectedAsWritten(f.days)
    ensures DateRangeField in errors <==>
      CheckRuns(f) && CarBooked(f.carId.value, f.startDate.value, f.days, rentals)
    ensures forall k :: k in errors ==> errors[k] == ProblemOf(k)
  {
    var e0: map<Field, Problem> := map[];
    var e1 := if f.customerId.None? then e0[CustomerIdField := Required] else e0;
    var e2 := if f.carId.None? then e1[CarIdField := Required] else e1;
    var e3 := if f.startDate.None? then e2[StartDateField := Required] else e2;
    var e4 := if DaysRejectedAsWritten(f.days) then e3[DaysField := Invalid] else e3;
    if CheckRuns(f) && CarBooked(f.carId.value, f.startDate.value, f.days, rentals)
    then e4[DateRangeField := Unavailable]
    else e4
  }

  /** The message kind each key carries. */
  function ProblemOf(k: Field): Problem {
    match k
    case DaysField => Invalid
    case DateRangeField => Unavailable
    case _ => Required
  }

  /** `validate` with the day count read as intended: a day count that does not
      parse (`NaN`) is rejected like one that is not positive. */
  function Validate(f: FormData, rentals: seq<Rental>): (errors: map<Field, Problem>)
    ensures DaysField in errors <==> ParseInt(f.days).None? || ParseInt(f.days).value <= 0
    ensures forall k :: k != DaysField ==> (k in errors <==> k in ValidateAsWritten(f, rentals))
    ensures forall k :: k in errors ==> errors[k] == ProblemOf(k)
  {
    EmptyDaysIsNaN();
    var e := ValidateAsWritten(f, rentals);
    if ParseInt(f.days).None? then e[DaysField := Invalid] else e
  }

  lemma EmptyDaysIsNaN()
    ensures ParseInt("") == None
  {
    ParseIntWithoutDigits("");
  }

  /** `validate` returns true exactly when no error key was set. */
  predicate IsValid(f: FormData, rentals: seq<Rental>) {
    Validate(f, rentals) == map[]
  }

  /** The two versions differ only on day counts that do not parse. */
  lemma ValidateAgreesWhenDaysParse(f: FormData, rentals: seq<Rental>)
    requires ParseInt(f.days).Some?
    ensures Validate(f, rentals) == ValidateAsWritten(f, rentals)
  {
    EmptyDaysIsNaN();
  }

  /** A form `validate` accepts as written although its day count is `NaN`: the
      text ".5" has no leading digit, so `parseInt` gives `NaN`, and `NaN <= 0` is false. */
  lemma AsWrittenAcceptsNaNDays()
    ensures var f := FormData(Some(1), Some(2), Some(100), ".5");
      ParseInt(f.days).None? && ValidateAsWritten(f, []) == map[] && DaysField in Validate(f, [])
  {
    var f := FormData(Some(1), Some(2), Some(100), ".5");
    assert LeadingDigits(".5") == 0;
    assert ParseDigits(".5") == None;
    assert ParseInt(".5") == None;
  }

  /** A valid form has every field, a positive day count and a car that is free. */
  lemma ValidMeansComplete(f: FormData, rentals: seq<Rental>)
    requires IsValid(f, rentals)
    ensures f.customerId.Some? && f.carId.Some? && f.startDate.Some?
    ensures ParseInt(f.days).Some? && ParseInt(f.days).value >= 1
    ensures !CarBooked(f.carId.value, f.startDate.value, f.days, rentals)
  {
    assert CustomerIdField !in Validate(f, rentals);
    assert CarIdField !in Validate(f, rentals);
    assert StartDateField !in Validate(f, rentals);
    assert DaysField !in Validate(f, rentals);
    assert DateRangeField !in Validate(f, rentals);
    assert f.days != "" by { EmptyDaysIsNaN(); }
  }

  /** With a non-negative day count `n`, the date-range error is set exactly when
      some rental of the same car shares a day with `[start, start + n]` (rentals
      of non-negative length). */
  lemma DateRangeIffSharedDay(f: FormData, rentals: seq<Rental>, n: int)
    requires f.carId.Some? && f.startDate.Some? && ParseInt(f.days) == Some(n) && n >= 0
    requires forall i :: 0 <= i < |rentals| ==> rentals[i].days >= 0
    ensures DateRangeField in Validate(f, rentals) <==>
      exists i :: 0 <= i < |rentals| && rentals[i].carId == f.carId.value &&
        ShareADay(f.startDate.value, f.startDate.value + n, rentals[i].startDate, rentals[i].startDate + rentals[i].days)
  {
    EmptyDaysIsNaN();
    var s := f.startDate.value;
    forall i | 0 <= i < |rentals|
      ensures Clashes(f.carId.value, s, f.days, rentals[i]) <==>
        rentals[i].carId == f.carId.value &&
        ShareADay(s, s + n, rentals[i].startDate, rentals[i].startDate + rentals[i].days)
    {
      OverlapIffShareADay(s, s + n, rentals[i].startDate, rentals[i].startDate + rentals[i].days);
    }
  }

  /** There is no self-exclusion: a listed rental of the same car, from the same
      day and for the same number of days, always raises the date-range error. */
  lemma SameRentalAlwaysClashes(f: FormData, rentals: seq<Rental>, i: nat)
    requires i < |rentals| && f.carId.Some? && f.startDate.Some?
    requires rentals[i].carId == f.carId.value && rentals[i].startDate == f.startDate.value
    requires ParseInt(f.days) == Some(rentals[i].days) && rentals[i].days >= 0
    ensures DateRangeField in Validate(f, rentals)
  {
    EmptyDaysIsNaN();
    assert Clashes(f.carId.value, f.startDate.value, f.days, rentals[i]);
  }

  /** With a positive day count the form's check agrees with the corrected
      `isCarAvailable` over the same rentals (saved rentals, no exclusion). */
  lemma AgreesWithDataService(f: FormData, rentals: seq<Rental>, n: int)
    requires f.carId.Some? && f.startDate.Some? && ParseInt(f.days) == Some(n) && n >= 1
    requires forall i :: 0 <= i < |rentals| ==> rentals[i].id.Some? && rentals[i].days >= 0
    ensures DateRangeField in Validate(f, rentals) <==>
      !DataService.IsCarAvailable(f.carId.value, Date(f.startDate.value), Date(f.startDate.value + n), None, rentals)
  {
    EmptyDaysIsNaN();
    var s := f.startDate.value;
    forall i | 0 <= i < |rentals|
      ensures Clashes(f.carId.value, s, f.days, rentals[i]) <==>
        DataService.Conflict(f.carId.value, Date(s), Date(s + n), None, rentals[i])
    {
      DataService.ThreeWayIsClosedOverlap(s, s + n, rentals[i].startDate, rentals[i].startDate + rentals[i].days);
    }
  }

  // ----- submit -----

  /** What submitting does: the rental handed on (if any) and the next form state. */
  datatype Submission = Submission(rental: Option<Rental>, next: FormData)

  /** `handleSubmit` with the corrected `validate`: when the form is valid, hand on a
      rental without an id built from the form (the day count parsed) and reset the
      form; otherwise do nothing. */
  function Submit(f: FormData, rentals: seq<Rental>): (s: Submission)
    ensures s.rental.Some? <==> IsValid(f, rentals)
    ensures s.rental.None? ==> s.next == f
    ensures s.rental.Some? ==>
      var r := s.rental.value;
      s.next == EmptyForm && r.id == None && r.days >= 1 &&
      Some(r.customerId) == f.customerId && Some(r.carId) == f.carId &&
      Some(r.startDate) == f.startDate && Some(r.days) == ParseInt(f.days)
  {
    if IsValid(f, rentals) then
      ValidMeansComplete(f, rentals);
      Submission(Some(Rental(None, f.customerId.value, f.carId.value, f.startDate.value, ParseInt(f.days).value)),
                 EmptyForm)
    else Submission(None, f)
  }

  /** The rental `handleSubmit` builds as written. Its day count is
      `parseInt(days, 10)` unchecked, so it may be `NaN` (`None`). */
  datatype RawRental = RawRental(customerId: Id, carId: Id, startDate: int, days: Option<int>)

  /** What submitting does as written: the rental handed on (if any) and the next form state. */
  datatype RawSubmission = RawSubmission(rental: Option<RawRental>, next: FormData)

  /** `handleSubmit` as written: gated on `validate` as written, so a day count that
      `parseInt` cannot read still produces a rental. */
  function SubmitAsWritten(f: FormData, rentals: seq<Rental>): (s: RawSubmission)
    ensures s.rental.Some? <==> ValidateAsWritten(f, rentals) == map[]
    ensures s.rental.None? ==> s.next == f
    ensures s.rental.Some? ==>
      var r := s.rental.value;
      s.next == EmptyForm && r.days == ParseInt(f.days) &&
      (r.days.Some? ==> r.days.value >= 1) &&
      Some(r.customerId) == f.customerId && Some(r.carId) == f.carId && Some(r.startDate) == f.startDate
  {
    var errors := ValidateAsWritten(f, rentals);
    if errors == map[] then
      assert CustomerIdField !in errors && CarIdField !in errors && StartDateField !in errors;
      RawSubmission(Some(RawRental(f.customerId.value, f.carId.value, f.startDate.value, ParseInt(f.days))),
                    EmptyForm)
    else RawSubmission(None, f)
  }

  /** As written, days `.5` are submitted as a rental with `NaN` days and the form
      is reset; the corrected submit refuses the form. */
  lemma AsWrittenSubmitsNaNDays()
    ensures var f := FormData(Some(1), Some(2), Some(100), ".5");
      SubmitAsWritten(f, []) == RawSubmission(Some(RawRental(1, 2, 100, None)), EmptyForm) &&
      Submit(f, []) == Submission(None, f)
  {
    AsWrittenAcceptsNaNDays();
  }

  /** When the day count parses, the corrected submit does exactly what the
      as-written one does. */
  lemma SubmitAgreesWhenDaysParse(f: FormData, rentals: seq<Rental>)
    requires ParseInt(f.days).Some?
    ensures SubmitAsWritten(f, rentals).next == Submit(f, rentals).next
    ensures SubmitAsWritten(f, rentals).rental.Some? <==> Submit(f, rentals).rental.Some?
    ensures Submit(f, rentals).rental.Some? ==>
      var r := Submit(f, rentals).rental.value;
      SubmitAsWritten(f, rentals).rental == Some(RawRental(r.customerId, r.carId, r.startDate, Some(r.days)))
  {
    ValidateAgreesWhenDaysParse(f, rentals);
  }

  /** A submitted rental's period is disjoint from that of every existing rental
      of the same car. */
  lemma SubmittedRentalIsDisjoint(f: FormData, rentals: seq<Rental>)
    requires Submit(f, rentals).rental.Some?
    ensures var r := Submit(f, rentals).rental.value;
      forall i :: 0 <= i < |rentals| && rentals[i].carId == r.carId ==> Disjoint(rentals[i], r)
  {
    ValidMeansComplete(f, rentals);
    var r := Submit(f, rentals).rental.value;
    forall i | 0 <= i < |rentals| && rentals[i].carId == r.carId
      ensures Disjoint(rentals[i], r)
    {
      assert !Clashes(r.carId, r.startDate, f.days, rentals[i]);
    }
  }

  /** Accepting a submitted rental keeps the schedule free of double bookings. */
  lemma SubmitPreservesNoDoubleBooking(f: FormData, rentals: seq<Rental>)
    requires NoDoubleBooking(rentals)
    requires Submit(f, rentals).rental.Some?
    ensures NoDoubleBooking(rentals + [Submit(f, rentals).rental.value])
  {
    var r := Submit(f, rentals).rental.value;
    var all := rentals + [r];
    SubmittedRentalIsDisjoint(f, rentals);
    forall i, j | 0 <= i < j < |all| && all[i].carId == all[j].carId
      ensures Disjoint(all[i], all[j])
    {
      if j < |rentals| {
        assert all[i] == rentals[i] && all[j] == rentals[j];
      } else {
        assert all[i] == rentals[i] && all[j] == r;
      }
    }
  }
}
