/** The car record, its rental back-references and its availability test. */
module Cars {
  import opened Optional
  import opened Seqs
  import opened DateUtils
  import opened Rentals
  import RentalRefs

  /** The transmission a car gets when none is given. */
  const DefaultTransmission: string := "automatic"

  datatype Car = Car(
    id: Option<Id>,
    brand: string,
    model: string,
    chassisNumber: string,
    color: string,
    enginePower: int,
    transmission: string,
    rentals: seq<Id>)

  /** The constructor: a missing (`undefined`) transmission becomes `'automatic'`,
      and a new car has no rentals. */
  function NewCar(id: Option<Id>, brand: string, model: string, chassisNumber: string,
                  color: string, enginePower: int, transmission: Option<string>): (c: Car)
    ensures c.rentals == []
    ensures transmission.None? ==> c.transmission == DefaultTransmission
    ensures transmission.Some? ==> c.transmission == transmission.value
    ensures c.id == id && c.brand == brand && c.model == model && c.chassisNumber == chassisNumber
    ensures c.color == color && c.enginePower == enginePower
  {
    Car(id, brand, model, chassisNumber, color, enginePower, transmission.GetOr(DefaultTransmission), [])
  }

  /** `addRental`: only the rental list changes, and it never gains a duplicate. */
  function AddRental(c: Car, rentalId: Id): (r: Car)
    ensures r.(rentals := c.rentals) == c
    ensures rentalId in r.rentals
    ensures forall y :: y in r.rentals <==> y in c.rentals || y == rentalId
    ensures NoDuplicates(c.rentals) ==> NoDuplicates(r.rentals)
  {
    c.(rentals := RentalRefs.AddRental(c.rentals, rentalId))
  }

  /** `removeRental`: only the rental list changes, and `rentalId` is gone from it. */
  function RemoveRental(c: Car, rentalId: Id): (r: Car)
    ensures r.(rentals := c.rentals) == c
    ensures rentalId !in r.rentals
    ensures forall y :: y != rentalId ==> (y in r.rentals <==> y in c.rentals)
  {
    c.(rentals := RentalRefs.RemoveRental(c.rentals, rentalId))
  }

  /** `rental` is one of this car's and its period meets `[start, end]`. */
  predicate Conflicts(c: Car, start: Instant, end: Instant, rental: Rental) {
    Some(rental.carId) == c.id && OverlapsWithDateRange(rental, start, end)
  }

  /** No rental of this car meets `[start, end]`. */
  predicate Available(c: Car, start: Instant, end: Instant, all: seq<Rental>) {
    forall i :: 0 <= i < |all| ==> !Conflicts(c, start, end, all[i])
  }

  /** `isAvailable`: scan the rentals, as `Array.prototype.some` does, for one of
      this car's that overlaps the range. */
  method IsAvailable(c: Car, start: Instant, end: Instant, all: seq<Rental>) returns (ok: bool)
    ensures ok <==> Available(c, start, end, all)
  {
    var i := 0;
    while i < |all|
      invariant 0 <= i <= |all|
      invariant forall k :: 0 <= k < i ==> !Conflicts(c, start, end, all[k])
    {
      if Conflicts(c, start, end, all[i]) {
        return false;
      }
      i := i + 1;
    }
    return true;
  }

  /** Only this car's rentals matter: the answer is the same over the rentals
      filtered down to this car. */
  lemma AvailableIgnoresOtherCars(c: Car, start: Instant, end: Instant, all: seq<Rental>)
    ensures Available(c, start, end, all) ==
            Available(c, start, end, Filter(all, (r: Rental) => Some(r.carId) == c.id))
  {
    var mine := Filter(all, (r: Rental) => Some(r.carId) == c.id);
    if Available(c, start, end, mine) {
      forall i | 0 <= i < |all| ensures !Conflicts(c, start, end, all[i]) {
        if Some(all[i].carId) == c.id {
          assert all[i] in mine;
        }
      }
    }
    if Available(c, start, end, all) {
      forall i | 0 <= i < |mine| ensures !Conflicts(c, start, end, mine[i]) {
        assert mine[i] in all;
      }
    }
  }

  /** With no rentals at all, every car is available. */
  lemma NoRentalsMeansAvailable(c: Car, start: Instant, end: Instant)
    ensures Available(c, start, end, [])
  {
  }

  /** On a well-formed range of days, the car is available exactly when no
      rental of it shares a day with the range. */
  lemma AvailableIffNoSharedDay(c: Car, s: int, e: int, all: seq<Rental>)
    requires s <= e
    requires forall i :: 0 <= i < |all| ==> all[i].days >= 0
    ensures Available(c, Date(s), Date(e), all) <==>
      forall i :: 0 <= i < |all| && Some(all[i].carId) == c.id ==>
        !ShareADay(s, e, all[i].startDate, all[i].startDate + all[i].days)
  {
    forall i | 0 <= i < |all| {
      OverlapsIffShareADay(all[i], s, e);
    }
  }

  // ----- JSON -----

  /** The plain object `toJSON` returns and `fromJSON` reads; `None` is a missing field. */
  datatype CarJson = CarJson(
    id: Option<Id>,
    brand: string,
    model: string,
    chassisNumber: string,
    color: string,
    enginePower: int,
    transmission: Option<string>,
    rentals: Option<seq<Id>>)

  function ToJson(c: Car): (j: CarJson)
    ensures j.transmission == Some(c.transmission) && j.rentals == Some(c.rentals)
    ensures j.id == c.id && j.brand == c.brand && j.model == c.model
    ensures j.chassisNumber == c.chassisNumber && j.color == c.color && j.enginePower == c.enginePower
  {
    CarJson(c.id, c.brand, c.model, c.chassisNumber, c.color, c.enginePower, Some(c.transmission), Some(c.rentals))
  }

  /** `fromJSON`: build through the constructor, then copy the rental list when
      there is one. */
  function FromJson(j: CarJson): (c: Car)
    ensures j.rentals.None? ==> c.rentals == []
    ensures j.rentals.Some? ==> c.rentals == j.rentals.value
    ensures j.transmission.None? ==> c.transmission == DefaultTransmission
    ensures j.transmission.Some? ==> c.transmission == j.transmission.value
    ensures c.id == j.id && c.brand == j.brand && c.model == j.model
    ensures c.chassisNumber == j.chassisNumber && c.color == j.color && c.enginePower == j.enginePower
    ensures ToJson(c) == j.(transmission := Some(c.transmission), rentals := Some(c.rentals))
  {
    var c := NewCar(j.id, j.brand, j.model, j.chassisNumber, j.color, j.enginePower, j.transmission);
    match j.rentals
    case Some(ids) => c.(rentals := ids)
    case None => c
  }

  /** `fromJSON(toJSON(c))` gives back every field and the rental list. */
  lemma JsonRoundTrip(c: Car)
    ensures FromJson(ToJson(c)) == c
  {
  }
}
