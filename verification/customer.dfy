/** The customer record, its rental back-references and its active-rental test. */
module Customers {
  import opened Optional
  import opened Seqs
  import opened DateUtils
  import opened Rentals
  import RentalRefs

  datatype Customer = Customer(
    id: Option<Id>,
    firstName: string,
    lastName: string,
    identityNumber: string,
    address: string,
    phoneNumber: string,
    income: real,
    rentals: seq<Id>)

  /** The constructor: a missing or empty address becomes `''`, a missing income
      becomes 0, and a new customer has no rentals. */
  function NewCustomer(id: Option<Id>, firstName: string, lastName: string, identityNumber: string,
                       address: Option<string>, phoneNumber: string, income: Option<real>): (c: Customer)
    ensures c.rentals == []
    ensures address.None? ==> c.address == ""
    ensures address.Some? ==> c.address == address.value
    ensures income.None? ==> c.income == 0.0
    ensures income.Some? ==> c.income == income.value
    ensures c.id == id && c.firstName == firstName && c.lastName == lastName
    ensures c.identityNumber == identityNumber && c.phoneNumber == phoneNumber
  {
    Customer(id, firstName, lastName, identityNumber, address.GetOr(""), phoneNumber, income.GetOr(0.0), [])
  }

  /** `addRental`: only the rental list changes, and it never gains a duplicate. */
  function AddRental(c: Customer, rentalId: Id): (r: Customer)
    ensures r.(rentals := c.rentals) == c
    ensures rentalId in r.rentals
    ensures forall y :: y in r.rentals <==> y in c.rentals || y == rentalId
    ensures NoDuplicates(c.rentals) ==> NoDuplicates(r.rentals)
  {
    c.(rentals := RentalRefs.AddRental(c.rentals, rentalId))
  }

  /** `removeRental`: only the rental list changes, and `rentalId` is gone from it. */
  function RemoveRental(c: Customer, rentalId: Id): (r: Customer)
    ensures r.(rentals := c.rentals) == c
    ensures rentalId !in r.rentals
    ensures forall y :: y != rentalId ==> (y in r.rentals <==> y in c.rentals)
  {
    c.(rentals := RentalRefs.RemoveRental(c.rentals, rentalId))
  }

  /** `rental` is this customer's and day `now` lies within its period. */
  predicate ActiveOn(c: Customer, rental: Rental, now: int) {
    Some(rental.customerId) == c.id &&
    AtOrAfter(Date(now), Date(rental.startDate)) && AtOrBefore(Date(now), GetEndDate(rental))
  }

  /** Some rental of this customer is running on day `now`. */
  predicate HasActive(c: Customer, rentals: seq<Rental>, now: int) {
    exists i :: 0 <= i < |rentals| && ActiveOn(c, rentals[i], now)
  }

  /** `hasActiveRental`, with the current day passed in rather than read from the clock. */
  method HasActiveRental(c: Customer, rentals: seq<Rental>, now: int) returns (active: bool)
    ensures active <==> HasActive(c, rentals, now)
  {
    var i := 0;
    while i < |rentals|
      invariant 0 <= i <= |rentals|
      invariant forall k :: 0 <= k < i ==> !ActiveOn(c, rentals[k], now)
    {
      if ActiveOn(c, rentals[i], now) {
        return true;
      }
      i := i + 1;
    }
    return false;
  }

  /** A rental is active on `now` exactly when `start <= now <= start + days`. */
  lemma ActiveOnIffWithinPeriod(c: Customer, rental: Rental, now: int)
    ensures ActiveOn(c, rental, now) <==>
      Some(rental.customerId) == c.id && rental.startDate <= now <= rental.startDate + rental.days
  {
  }

  /** Rentals of other customers never make a customer active. */
  lemma OtherCustomersIgnored(c: Customer, rentals: seq<Rental>, others: seq<Rental>, now: int)
    requires forall i :: 0 <= i < |others| ==> Some(others[i].customerId) != c.id
    ensures HasActive(c, rentals + others, now) == HasActive(c, rentals, now)
  {
    if HasActive(c, rentals + others, now) {
      var i :| 0 <= i < |rentals + others| && ActiveOn(c, (rentals + others)[i], now);
      assert ActiveOn(c, rentals[i], now);
    }
    if HasActive(c, rentals, now) {
      var i :| 0 <= i < |rentals| && ActiveOn(c, rentals[i], now);
      assert (rentals + others)[i] == rentals[i];
    }
  }

  // ----- JSON -----

  /** The plain object `toJSON` returns and `fromJSON` reads; `None` is a missing field. */
  datatype CustomerJson = CustomerJson(
    id: Option<Id>,
    firstName: string,
    lastName: string,
    identityNumber: string,
    address: Option<string>,
    phoneNumber: string,
    income: Option<real>,
    rentals: Option<seq<Id>>)

  function ToJson(c: Customer): (j: CustomerJson)
    ensures j.address == Some(c.address) && j.income == Some(c.income) && j.rentals == Some(c.rentals)
    ensures j.id == c.id && j.firstName == c.firstName && j.lastName == c.lastName
    ensures j.identityNumber == c.identityNumber && j.phoneNumber == c.phoneNumber
  {
    CustomerJson(c.id, c.firstName, c.lastName, c.identityNumber, Some(c.address), c.phoneNumber,
                 Some(c.income), Some(c.rentals))
  }

  /** `fromJSON`: build through the constructor, then copy the rental list when
      there is one. */
  function FromJson(j: CustomerJson): (c: Customer)
    ensures j.rentals.None? ==> c.rentals == []
    ensures j.rentals.Some? ==> c.rentals == j.rentals.value
    ensures j.address.None? ==> c.address == ""
    ensures j.income.None? ==> c.income == 0.0
    ensures j.address.Some? ==> c.address == j.address.value
    ensures j.income.Some? ==> c.income == j.income.value
    ensures c.id == j.id && c.firstName == j.firstName && c.lastName == j.lastName
    ensures c.identityNumber == j.identityNumber && c.phoneNumber == j.phoneNumber
    ensures ToJson(c) == j.(address := Some(c.address), income := Some(c.income), rentals := Some(c.rentals))
  {
    var c := NewCustomer(j.id, j.firstName, j.lastName, j.identityNumber, j.address, j.phoneNumber, j.income);
    match j.rentals
    case Some(ids) => c.(rentals := ids)
    case None => c
  }

  /** `fromJSON(toJSON(c))` gives back every field and the rental list. */
  lemma JsonRoundTrip(c: Customer)
    ensures FromJson(ToJson(c)) == c
  {
  }
}
