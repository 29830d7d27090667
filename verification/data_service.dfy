/** The pure parts of the data-access layer: the id counter, the availability
    check with its exclude-id, the per-customer and per-car rental filters, and
    the lookups by id. The store is passed in: the counter's stored text, and the
    lists the API returned. */
module DataService {
  import opened Optional
  import opened Seqs
  import JsText
  import opened DateUtils
  import opened Rentals
  import Cars
  import Customers

  // ----- id counter -----

  /** `localStorage.getItem(COUNTER_KEY) || '1'`: a missing or empty entry reads as "1". */
  function CounterText(stored: Option<string>): string {
    match stored
    case Some(s) => if s == "" then "1" else s
    case None => "1"
  }

  /** The id the next call hands out; `None` is `NaN` (unreadable counter text). */
  function CounterValue(stored: Option<string>): Option<int> {
    JsText.ParseInt(CounterText(stored))
  }

  /** The id handed out and the counter text stored afterwards. */
  datatype Draw = Draw(id: Option<int>, stored: string)

  /** `getNextId`: hand out the counter and store its successor. `NaN + 1` is
      `NaN`, stored as the text "NaN". */
  function GetNextId(stored: Option<string>): (d: Draw)
    ensures d.id == CounterValue(stored)
    ensures stored.None? ==> d.id == Some(1)
    ensures d.id.Some? ==> CounterValue(Some(d.stored)) == Some(d.id.value + 1)
    ensures d.id.None? ==> CounterValue(Some(d.stored)) == None
  {
    CounterStartsAtOne();
    match CounterValue(stored)
    case Some(n) =>
      CounterReadsWritten(n + 1);
      Draw(Some(n), JsText.IntToDecimal(n + 1))
    case None =>
      CounterNaNSticks();
      Draw(None, "NaN")
  }

  lemma CounterStartsAtOne()
    ensures CounterValue(None) == Some(1)
  {
    assert CounterText(None) == JsText.IntToDecimal(1);
    JsText.ParseIntOfIntToDecimal(1);
  }

  lemma CounterReadsWritten(n: int)
    ensures CounterValue(Some(JsText.IntToDecimal(n))) == Some(n)
  {
    assert CounterText(Some(JsText.IntToDecimal(n))) == JsText.IntToDecimal(n);
    JsText.ParseIntOfIntToDecimal(n);
  }

  lemma CounterNaNSticks()
    ensures CounterValue(Some("NaN")) == None
  {
    JsText.ParseIntWithoutDigits("NaN");
  }

  /** A counter text the function wrote itself is read back as the number it holds. */
  lemma GetNextIdReadsWhatItWrote(n: int)
    ensures GetNextId(Some(JsText.IntToDecimal(n))).id == Some(n)
  {
    CounterReadsWritten(n);
  }

  /** The ids that `k` successive calls hand out, starting from `stored`: the
      counter's value and its successors, or `NaN` throughout when the counter
      cannot be read. */
  function NextIds(stored: Option<string>, k: nat): (ids: seq<Option<int>>)
    ensures |ids| == k
    ensures CounterValue(stored).Some? ==> ids == Consecutive(CounterValue(stored).value, k)
    ensures CounterValue(stored).None? ==> forall i :: 0 <= i < k ==> ids[i] == None
    decreases k
  {
    if k == 0 then []
    else
      var d := GetNextId(stored);
      var rest := NextIds(Some(d.stored), k - 1);
      [d.id] + rest
  }

  /** `Some(n), Some(n + 1), ..., Some(n + k - 1)`. */
  function Consecutive(n: int, k: nat): (ids: seq<Option<int>>)
    ensures |ids| == k
    ensures forall i :: 0 <= i < k ==> ids[i] == Some(n + i)
    decreases k
  {
    if k == 0 then [] else [Some(n)] + Consecutive(n + 1, k - 1)
  }

  /** From a readable counter `n`, `k` successive calls hand out `n, n + 1, ...`. */
  lemma SuccessiveIdsConsecutive(stored: Option<string>, k: nat, n: int)
    requires CounterValue(stored) == Some(n)
    ensures NextIds(stored, k) == Consecutive(n, k)
  {
  }

  /** Successive calls from a readable counter hand out strictly increasing ids. */
  lemma SuccessiveIdsIncrease(stored: Option<string>, k: nat, n: int)
    requires CounterValue(stored) == Some(n)
    ensures forall i :: 0 <= i < k ==> NextIds(stored, k)[i] == Some(n + i)
    ensures forall i, j :: 0 <= i < j < k ==> NextIds(stored, k)[i].value < NextIds(stored, k)[j].value
  {
    SuccessiveIdsConsecutive(stored, k, n);
  }

  // ----- isCarAvailable -----

  /** The rental takes part in the check: it is for the car and is not the excluded one. */
  predicate Considered(carId: Id, excludeRentalId: Option<Id>, r: Rental) {
    r.carId == carId && r.id != excludeRentalId
  }

  /** The three-way test: the candidate start lies in the rental, the candidate
      end lies in it, or the candidate covers it. */
  predicate ThreeWayOverlap(start: Instant, end: Instant, rentalStart: Instant, rentalEnd: Instant) {
    (AtOrAfter(start, rentalStart) && AtOrBefore(start, rentalEnd)) ||
    (AtOrAfter(end, rentalStart) && AtOrBefore(end, rentalEnd)) ||
    (AtOrBefore(start, rentalStart) && AtOrAfter(end, rentalEnd))
  }

  /** For well-formed ranges the three-way test is the closed-interval overlap test. */
  lemma ThreeWayIsClosedOverlap(s: int, e: int, rs: int, re: int)
    requires s <= e && rs <= re
    ensures ThreeWayOverlap(Date(s), Date(e), Date(rs), Date(re)) <==>
            IsDateRangeOverlapping(Date(s), Date(e), Date(rs), Date(re))
  {
  }

  /** The rental's `endDate` as the check reads it: rental records have no such
      field, so it is `new Date(undefined)`, the Invalid Date. */
  function EndDateField(r: Rental): Instant {
    InvalidDate
  }

  /** `isCarAvailable` as written: no considered rental passes the three-way test
      against `[rental.startDate, rental.endDate]`. */
  predicate IsCarAvailableAsWritten(carId: Id, start: Instant, end: Instant, excludeRentalId: Option<Id>,
                                    rentals: seq<Rental>) {
    forall i :: 0 <= i < |rentals| ==>
      !(Considered(carId, excludeRentalId, rentals[i]) &&
        ThreeWayOverlap(start, end, Date(rentals[i].startDate), EndDateField(rentals[i])))
  }

  /** Every comparison against the Invalid Date is false, so as written the check
      reports every car available for every range. */
  lemma AsWrittenAlwaysAvailable(carId: Id, start: Instant, end: Instant, excludeRentalId: Option<Id>,
                                 rentals: seq<Rental>)
    ensures IsCarAvailableAsWritten(carId, start, end, excludeRentalId, rentals)
  {
  }

  /** A concrete double booking the check lets through: car 7 is rented for days
      10 to 13, and the range 11 to 12 is still reported available. */
  lemma AsWrittenMissesDoubleBooking()
    ensures var booked := Rental(Some(1), 3, 7, 10, 3);
      IsCarAvailableAsWritten(7, Date(11), Date(12), None, [booked]) &&
      !IsCarAvailable(7, Date(11), Date(12), None, [booked])
  {
    var booked := Rental(Some(1), 3, 7, 10, 3);
    assert [booked][0] == booked;
    assert Conflict(7, Date(11), Date(12), None, booked);
  }

  /** The considered rental `r` meets the candidate range, with the rental's end
      taken as `startDate + days`. */
  predicate Conflict(carId: Id, start: Instant, end: Instant, excludeRentalId: Option<Id>, r: Rental) {
    Considered(carId, excludeRentalId, r) && ThreeWayOverlap(start, end, Date(r.startDate), GetEndDate(r))
  }

  /** The corrected check: no considered rental meets the candidate range. */
  predicate IsCarAvailable(carId: Id, start: Instant, end: Instant, excludeRentalId: Option<Id>,
                           rentals: seq<Rental>) {
    forall i :: 0 <= i < |rentals| ==> !Conflict(carId, start, end, excludeRentalId, rentals[i])
  }

  /** The corrected check as a scan over the rental list. */
  method CheckCarAvailable(carId: Id, start: Instant, end: Instant, excludeRentalId: Option<Id>,
                           rentals: seq<Rental>) returns (ok: bool)
    ensures ok <==> IsCarAvailable(carId, start, end, excludeRentalId, rentals)
  {
    var i := 0;
    while i < |rentals|
      invariant 0 <= i <= |rentals|
      invariant forall k :: 0 <= k < i ==> !Conflict(carId, start, end, excludeRentalId, rentals[k])
    {
      if Conflict(carId, start, end, excludeRentalId, rentals[i]) {
        return false;
      }
      i := i + 1;
    }
    return true;
  }

  /** Rentals of other cars and the excluded rental never matter: the answer is
      the same over the considered rentals alone. */
  lemma OnlyConsideredRentalsMatter(carId: Id, start: Instant, end: Instant, excludeRentalId: Option<Id>,
                                    rentals: seq<Rental>)
    ensures IsCarAvailable(carId, start, end, excludeRentalId, rentals) ==
            IsCarAvailable(carId, start, end, excludeRentalId,
                           Filter(rentals, (r: Rental) => Considered(carId, excludeRentalId, r)))
  {
    var kept := Filter(rentals, (r: Rental) => Considered(carId, excludeRentalId, r));
    if IsCarAvailable(carId, start, end, excludeRentalId, kept) {
      forall i | 0 <= i < |rentals| ensures !Conflict(carId, start, end, excludeRentalId, rentals[i]) {
        if Considered(carId, excludeRentalId, rentals[i]) {
          assert rentals[i] in kept;
        }
      }
    }
    if IsCarAvailable(carId, start, end, excludeRentalId, rentals) {
      forall i | 0 <= i < |kept| ensures !Conflict(carId, start, end, excludeRentalId, kept[i]) {
        assert kept[i] in rentals;
      }
    }
  }

  /** On a well-formed range, with saved rentals of non-negative length and no
      exclusion, the corrected check agrees with the car's own `isAvailable`. */
  lemma CorrectedAgreesWithCar(c: Cars.Car, carId: Id, s: int, e: int, rentals: seq<Rental>)
    requires c.id == Some(carId) && s <= e
    requires forall i :: 0 <= i < |rentals| ==> rentals[i].id.Some? && rentals[i].days >= 0
    ensures IsCarAvailable(carId, Date(s), Date(e), None, rentals) <==> Cars.Available(c, Date(s), Date(e), rentals)
  {
    forall i | 0 <= i < |rentals|
      ensures Conflict(carId, Date(s), Date(e), None, rentals[i]) <==> Cars.Conflicts(c, Date(s), Date(e), rentals[i])
    {
      var r := rentals[i];
      ThreeWayIsClosedOverlap(s, e, r.startDate, r.startDate + r.days);
    }
  }

  /** The boundary cases: a booking of days 100 to 103 blocks a range starting on
      day 103 but not one starting on day 104, and excluding the booking's own id
      lifts its block. */
  lemma BoundaryCases()
    ensures var booked := Rental(Some(1), 5, 9, 100, 3);
      !IsCarAvailable(9, Date(103), Date(105), None, [booked]) &&
      IsCarAvailable(9, Date(104), Date(106), None, [booked]) &&
      IsCarAvailable(9, Date(101), Date(103), Some(1), [booked]) &&
      !IsCarAvailable(9, Date(101), Date(103), None, [booked]) &&
      IsCarAvailable(8, Date(101), Date(103), None, [booked])
  {
    var booked := Rental(Some(1), 5, 9, 100, 3);
    assert [booked][0] == booked;
    assert Conflict(9, Date(103), Date(105), None, booked);
    assert Conflict(9, Date(101), Date(103), None, booked);
  }

  // ----- filters -----

  /** `getRentalsByCustomerId`: the rentals of one customer, in their original order. */
  function RentalsByCustomerId(rentals: seq<Rental>, customerId: Id): (r: seq<Rental>)
    ensures forall i :: 0 <= i < |r| ==> r[i] in rentals && r[i].customerId == customerId
    ensures forall i :: 0 <= i < |rentals| && rentals[i].customerId == customerId ==> rentals[i] in r
  {
    Filter(rentals, (x: Rental) => x.customerId == customerId)
  }

  /** `getRentalsByCarId`: the rentals of one car, in their original order. */
  function RentalsByCarId(rentals: seq<Rental>, carId: Id): (r: seq<Rental>)
    ensures forall i :: 0 <= i < |r| ==> r[i] in rentals && r[i].carId == carId
    ensures forall i :: 0 <= i < |rentals| && rentals[i].carId == carId ==> rentals[i] in r
  {
    Filter(rentals, (x: Rental) => x.carId == carId)
  }

  /** The customer filter keeps order (it distributes over concatenation) and keeps
      every matching rental as often as it occurs. */
  lemma RentalsByCustomerIdExact(a: seq<Rental>, b: seq<Rental>, customerId: Id, x: Rental)
    ensures RentalsByCustomerId(a + b, customerId) == RentalsByCustomerId(a, customerId) + RentalsByCustomerId(b, customerId)
    ensures multiset(RentalsByCustomerId(a, customerId))[x] ==
            if x.customerId == customerId then multiset(a)[x] else 0
  {
    FilterConcat(a, b, (r: Rental) => r.customerId == customerId);
    FilterCount(a, (r: Rental) => r.customerId == customerId, x);
  }

  /** The car filter keeps order and multiplicity likewise. */
  lemma RentalsByCarIdExact(a: seq<Rental>, b: seq<Rental>, carId: Id, x: Rental)
    ensures RentalsByCarId(a + b, carId) == RentalsByCarId(a, carId) + RentalsByCarId(b, carId)
    ensures multiset(RentalsByCarId(a, carId))[x] == if x.carId == carId then multiset(a)[x] else 0
  {
    FilterConcat(a, b, (r: Rental) => r.carId == carId);
    FilterCount(a, (r: Rental) => r.carId == carId, x);
  }

  // ----- lookups by id -----

  /** `getCustomerById`: the first customer with the id, or `null`. */
  function CustomerById(customers: seq<Customers.Customer>, id: Id): (r: Option<Customers.Customer>)
    ensures r.None? <==> forall i :: 0 <= i < |customers| ==> customers[i].id != Some(id)
    ensures r.Some? ==> (r.value.id == Some(id) &&
      exists i :: 0 <= i < |customers| && customers[i] == r.value &&
        forall j :: 0 <= j < i ==> customers[j].id != Some(id))
  {
    Find(customers, (c: Customers.Customer) => c.id == Some(id))
  }

  /** `getCarById`: the first car with the id, or `null`. */
  function CarById(cars: seq<Cars.Car>, id: Id): (r: Option<Cars.Car>)
    ensures r.None? <==> forall i :: 0 <= i < |cars| ==> cars[i].id != Some(id)
    ensures r.Some? ==> (r.value.id == Some(id) &&
      exists i :: 0 <= i < |cars| && cars[i] == r.value &&
        forall j :: 0 <= j < i ==> cars[j].id != Some(id))
  {
    Find(cars, (c: Cars.Car) => c.id == Some(id))
  }

  /** `getRentalById`: the first rental with the id, or `null`. */
  function RentalById(rentals: seq<Rental>, id: Id): (r: Option<Rental>)
    ensures r.None? <==> forall i :: 0 <= i < |rentals| ==> rentals[i].id != Some(id)
    ensures r.Some? ==> (r.value.id == Some(id) &&
      exists i :: 0 <= i < |rentals| && rentals[i] == r.value &&
        forall j :: 0 <= j < i ==> rentals[j].id != Some(id))
  {
    Find(rentals, (r: Rental) => r.id == Some(id))
  }
}
