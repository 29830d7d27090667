/** The rental record: who rents which car from which day for how many days. */
module Rentals {
  import opened Optional
  import opened DateUtils

  /** Record ids. The store hands out positive integers; `None` is the `null` id
      of a record not yet saved. */
  type Id = int

  /** The constructor keeps exactly its five arguments. `startDate` is the day
      number of the `YYYY-MM-DD` text; `days` is the rental length as given. */
  datatype Rental = Rental(id: Option<Id>, customerId: Id, carId: Id, startDate: int, days: int)

  /** `getEndDate`: the start moved forward by `days`, so a one-day rental covers
      two calendar dates. */
  function GetEndDate(r: Rental): (e: Instant)
    ensures e.Date?
    ensures GetDaysBetweenDates(Date(r.startDate), e) == Some(r.days)
    ensures r.days >= 1 ==> After(e, Date(r.startDate))
    ensures r.days == 0 ==> e == Date(r.startDate)
  {
    AddDaysToDate(Date(r.startDate), r.days)
  }

  /** The last day number the rental occupies. */
  function EndDay(r: Rental): int {
    GetEndDate(r).day
  }

  /** `overlapsWithDateRange`: the range `[start, end]` meets the rental's closed
      period `[startDate, startDate + days]`. A rental meets its own period. */
  predicate OverlapsWithDateRange(r: Rental, start: Instant, end: Instant)
    ensures r.days >= 0 && start == Date(r.startDate) && end == GetEndDate(r) ==>
      OverlapsWithDateRange(r, start, end)
  {
    !(Before(end, Date(r.startDate)) || After(start, GetEndDate(r)))
  }

  /** The method applies `isDateRangeOverlapping` to the rental's own period. */
  lemma OverlapsAgreesWithDateUtils(r: Rental, start: Instant, end: Instant)
    ensures OverlapsWithDateRange(r, start, end) ==
            IsDateRangeOverlapping(start, end, Date(r.startDate), GetEndDate(r))
  {
  }

  /** On valid dates the range overlaps exactly when it shares a day with the
      rental's period (for a non-negative length and a well-formed range). */
  lemma OverlapsIffShareADay(r: Rental, s: int, e: int)
    requires s <= e && r.days >= 0
    ensures OverlapsWithDateRange(r, Date(s), Date(e)) <==> ShareADay(s, e, r.startDate, r.startDate + r.days)
  {
    OverlapIffShareADay(s, e, r.startDate, r.startDate + r.days);
  }

  /** Two rentals' closed periods are disjoint. */
  predicate Disjoint(a: Rental, b: Rental) {
    EndDay(a) < b.startDate || EndDay(b) < a.startDate
  }

  /** No car is booked twice for overlapping periods. */
  predicate NoDoubleBooking(rs: seq<Rental>) {
    forall i, j :: 0 <= i < j < |rs| && rs[i].carId == rs[j].carId ==> Disjoint(rs[i], rs[j])
  }

  // ----- JSON -----

  /** The plain object `toJSON` returns and `fromJSON` reads. */
  datatype RentalJson = RentalJson(id: Option<Id>, customerId: Id, carId: Id, startDate: int, days: int)

  function ToJson(r: Rental): (j: RentalJson)
    ensures j.id == r.id && j.customerId == r.customerId && j.carId == r.carId
    ensures j.startDate == r.startDate && j.days == r.days
  {
    RentalJson(r.id, r.customerId, r.carId, r.startDate, r.days)
  }

  function FromJson(j: RentalJson): (r: Rental)
    ensures ToJson(r) == j
  {
    Rental(j.id, j.customerId, j.carId, j.startDate, j.days)
  }

  /** `fromJSON(toJSON(r))` is `r`. */
  lemma JsonRoundTrip(r: Rental)
    ensures FromJson(ToJson(r)) == r
  {
  }
}
