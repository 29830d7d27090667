# Car rental: availability, validation and records

A Dafny model of the core of a small car-rental application. It models the date
helpers, the `Rental`, `Car` and `Customer` records, and the pure parts of the data
service: the id counter, the availability check, the filters and the lookups. It
also models the validation rules of the rental, customer and car forms. The
central question is whether a car can be booked twice for overlapping days, and the
model proves when it cannot.

How JavaScript values are modelled:

- A JavaScript `Date` is `DateUtils.Instant`: either a day number or the Invalid
  Date. Every comparison with the Invalid Date is false, as it is for `NaN`.
- An id is an `int`. A record that has not been saved yet has id `None` (`null`).
- `parseInt(s, 10)` is `JsText.ParseInt`, with `None` for `NaN`.
- `Number(s)` on decimal literals is `JsText.NumberValue`.
- `trim` is `JsText.Trim`, over ECMAScript's white-space and line-terminator code
  points.
- Each form's `validate` returns the map from field to the kind of message it sets
  (`Required`, `Invalid` or `Unavailable`). The form is valid when that map is empty.

Modules, one per source unit:

| module | models |
|---|---|
| `Optional`, `Seqs` | `null`/value, and the `filter` and `find` array helpers; `includes` is Dafny's `in`, used in `RentalRefs` |
| `JsText` | `trim`, `parseInt`, `Number`, and `toString` on integers |
| `DateUtils` | `src/utils/dateUtils.js` |
| `Rentals` | `src/models/Rental.jsx` |
| `RentalRefs`, `Cars`, `Customers` | `src/models/Car.jsx`, `src/models/Customer.jsx` |
| `DataService` | `src/services/DataService.js` |
| `FormErrors`, `RentalForm`, `CustomerForm`, `CarForm` | `validate` and `handleSubmit` of the three forms |

A `Rental` holds only an id, a customer id, a car id, a start date and a day count
(src/models/Rental.jsx:10-16). Its own `getEndDate` (Rental.jsx:22-26) and the car's
`isAvailable` (src/models/Car.jsx:64-75) derive the end as the start plus the day
count. The data service's `isCarAvailable` instead reads a field `endDate` that no
rental has. The model keeps that check as written, records the discrepancy under
"Findings", and proves the corrected check alongside it. In the same way the rental
form's validation and submission are modelled both as written and corrected.

## Model

| member | source | states |
|---|---|---|
| Seqs.Filter | src/models/Car.jsx:53-55 | the filtered array keeps exactly the elements that pass the test, each taken from the input |
| Seqs.FilterCount | src/services/DataService.js:339-342 | filtering keeps every passing element as often as it occurs and drops every other one |
| Seqs.FilterConcat | src/services/DataService.js:339-342 | filtering a concatenation is the concatenation of the filtered parts, so order is kept |
| Seqs.FilterIdempotent | src/models/Car.jsx:53-55 | filtering twice with the same test changes nothing |
| Seqs.FilterNoDuplicates | src/models/Car.jsx:53-55 | filtering an array without duplicates yields an array without duplicates |
| Seqs.Find | src/services/DataService.js:133-136 | `find` yields nothing exactly when no element passes, otherwise the first element that passes |
| JsText.TrimStart | src/components/CustomerForm.jsx:29 | removes exactly the leading white space: the removed prefix is white space and the rest does not start with white space |
| JsText.TrimEnd | src/components/CustomerForm.jsx:29 | removes exactly the trailing white space |
| JsText.Trim | src/components/CustomerForm.jsx:29 | the trimmed text is no longer than the input, and neither of its ends is white space |
| JsText.TrimCutsOnlyWhiteSpace | src/components/CustomerForm.jsx:29 | `trim` returns a slice of its input with only white space before and after it, so nothing but leading and trailing white space is removed |
| JsText.BlankIffAllWhiteSpace | src/components/CustomerForm.jsx:29 | `!s.trim()` holds exactly when every character of `s` is white space |
| JsText.IntToDecimal | src/services/DataService.js:26 | `String(n)` is non-empty and starts with a digit exactly when `n` is not negative |
| JsText.NatToDecimal | src/services/DataService.js:26 | `toString` of a natural number is a non-empty digit string without a leading zero |
| JsText.DigitsValueOfNatToDecimal | src/services/DataService.js:25-26 | reading back the decimal text of a number gives the number |
| JsText.NatToDecimalOfDigitsValue | src/services/DataService.js:25-26 | a canonical digit string is the text of its own value |
| JsText.ParseInt | src/services/DataService.js:25 | `parseInt(s, 10)`: skips white space, reads an optional sign and the longest digit run, and gives `NaN` when no digit follows; its properties are the `ParseInt...` lemmas below |
| JsText.ParseIntAfterTrimStart | src/services/DataService.js:25 | `parseInt` reads the signed numeral that follows the leading white space |
| JsText.ParseIntReadsLeadingNumeral | src/components/RentalForm.jsx:50 | `parseInt` of an integer's text followed by a non-digit gives that integer |
| JsText.ParseIntOfIntToDecimal | src/services/DataService.js:25-26 | `parseInt(String(n), 10)` is `n` for every integer, negative ones included |
| JsText.ParseIntSkipsLeadingWhiteSpace | src/components/RentalForm.jsx:50 | leading white space does not change what `parseInt` reads |
| JsText.ParseIntWithoutDigits | src/components/RentalForm.jsx:50 | a text without any digit parses to `NaN` |
| JsText.NumberValue | src/components/CarForm.jsx:47 | `Number` of a blank string is 0 |
| JsText.NumberOfNumeral | src/components/CarForm.jsx:47 | `Number` of a plain numeral is the value of its digits |
| JsText.NumberOfIntToDecimal | src/components/CarForm.jsx:47 | `Number(String(n))` is `n` for every integer, negative ones included |
| JsText.NumberOfPlusNumeral | src/components/CarForm.jsx:47 | `Number("+3")`: a numeral with a `+` in front denotes its value |
| JsText.NumberOfMinusNumeral | src/components/CarForm.jsx:47 | `Number("-3")`: a numeral with a `-` in front denotes its negated value |
| JsText.NumberOfDecimal | src/components/CarForm.jsx:47 | a literal with a fraction point (`0.5`, `2.`, `.5`) denotes its whole part plus its fraction digits divided by ten to the number of those digits |
| JsText.NumberOfPlusDecimal | src/components/CarForm.jsx:47 | the same literal with a `+` in front denotes the same value |
| JsText.NumberOfMinusDecimal | src/components/CarForm.jsx:47 | the same literal with a `-` in front denotes the negated value |
| JsText.ShiftIsQuotient | src/components/CarForm.jsx:47 | the value of `k` fraction digits is their integer value divided by ten to the `k` |
| DateUtils.IsDateRangeOverlapping | src/utils/dateUtils.js:9-12 | when an Invalid Date takes part in both comparisons, the ranges count as overlapping |
| DateUtils.OverlapOnValidDates | src/utils/dateUtils.js:9-12 | on valid dates the ranges overlap exactly when each starts no later than the other ends |
| DateUtils.OverlapIffShareADay | src/utils/dateUtils.js:9-12 | two non-empty closed ranges overlap exactly when some day lies in both |
| DateUtils.OverlapSymmetric | src/utils/dateUtils.js:9-12 | the overlap test does not depend on the order of the two ranges, for any dates |
| DateUtils.SharedEndpointOverlaps | src/utils/dateUtils.js:9-12 | a range ending on the day another starts overlaps it, because the ends are inclusive |
| DateUtils.OverlapWithInvalidEnd | src/utils/dateUtils.js:9-12 | with an Invalid Date as the first end, the test reduces to whether the first start is after the second end |
| DateUtils.AddDaysToDate | src/utils/dateUtils.js:54-58 | the result is valid exactly when the input is, and lies exactly `days` days after it |
| DateUtils.GetDaysBetweenDates | src/utils/dateUtils.js:89-100 | the difference is defined only for valid dates, positive exactly when the second is later, zero exactly when they are equal |
| DateUtils.AddZeroDays | src/utils/dateUtils.js:54-58 | adding zero days gives the same date, including the Invalid Date |
| DateUtils.AddDaysCompose | src/utils/dateUtils.js:54-58 | adding `a` days and then `b` days is adding `a + b` days |
| DateUtils.AddDaysBetween | src/utils/dateUtils.js:89-100 | adding the day difference to the first date gives the second date |
| DateUtils.DaysBetweenAntisymmetric | src/utils/dateUtils.js:89-100 | swapping the two dates negates the difference |
| DateUtils.IsDateInPast | src/utils/dateUtils.js:75-81 | the Invalid Date is never in the past |
| DateUtils.InPastIffTodayIsLater | src/utils/dateUtils.js:75-81 | a date is in the past exactly when it is valid and its day is before today |
| DateUtils.PadTwo | src/utils/dateUtils.js:26-27 | a numeral of one or two digits becomes exactly two digits with the same value |
| DateUtils.FormatDateForInput | src/utils/dateUtils.js:19-30 | a valid date is written as the year, `-`, two digits whose value is the month, `-`, two digits whose value is the day; the Invalid Date is written `NaN-NaN-NaN` |
| DateUtils.InvalidDateTextRejected | src/utils/dateUtils.js:19-30 | the text written for the Invalid Date is not accepted back as a date input's value |
| DateUtils.ParseDateInput | src/components/RentalForm.jsx:56-57 | the reading of a date input's `YYYY-MM-DD` value, the inverse partner of `FormatDateForInput`: an accepted text has month 1-12 and day 1-31 |
| DateUtils.ParseFormatRoundTrip | src/utils/dateUtils.js:19-30 | reading back the formatted text of a date with a four-digit year gives the same date |
| DateUtils.FormatParseRoundTrip | src/utils/dateUtils.js:19-30 | formatting a parsed text whose year has no leading zero gives the text back |
| Rentals.GetEndDate | src/models/Rental.jsx:22-26 | the end is a valid date exactly `days` days after the start: later when `days >= 1`, the start itself when `days == 0` |
| Rentals.OverlapsWithDateRange | src/models/Rental.jsx:34-40 | a rental with a non-negative day count overlaps its own period |
| Rentals.OverlapsAgreesWithDateUtils | src/models/Rental.jsx:34-40 | the rental's overlap test is the shared date-range overlap test applied to its start and end |
| Rentals.OverlapsIffShareADay | src/models/Rental.jsx:34-40 | a rental overlaps a non-empty range exactly when they share a day |
| Rentals.ToJson | src/models/Rental.jsx:46-54 | the JSON object carries each of the five fields of the rental |
| Rentals.FromJson | src/models/Rental.jsx:61-69 | decoding a JSON object gives the rental whose JSON is that object |
| Rentals.JsonRoundTrip | src/models/Rental.jsx:46-69 | decoding the JSON of a rental gives back the same rental |
| RentalRefs.AddRental | src/models/Car.jsx:43-47 | the id is present afterwards, the old list is a prefix, nothing else is added, and no duplicates appear |
| RentalRefs.RemoveRental | src/models/Car.jsx:53-55 | the id is absent afterwards, every other id is kept, and no duplicates appear |
| RentalRefs.AddPresent | src/models/Car.jsx:44 | adding an id already present leaves the list unchanged, duplicates included |
| RentalRefs.AddIdempotent | src/models/Customer.jsx:35-39 | adding the same id twice is adding it once |
| RentalRefs.RemoveKeepsOthers | src/models/Customer.jsx:45-47 | removal keeps every other id as many times as it occurred |
| RentalRefs.RemoveKeepsOrder | src/models/Customer.jsx:45-47 | removing from a concatenation removes from each part, so the remaining ids keep their order |
| RentalRefs.RemoveAbsent | src/models/Car.jsx:53-55 | removing an absent id changes nothing |
| RentalRefs.AddThenRemove | src/models/Car.jsx:43-55 | removing an id right after adding it leaves no trace of it, the same as removing it from the original list |
| RentalRefs.RemoveIdempotent | src/models/Car.jsx:53-55 | removing twice is removing once |
| Cars.NewCar | src/models/Car.jsx:12-21 | a new car has no rentals, takes every given field, and gets `automatic` when no transmission is given |
| Cars.AddRental | src/models/Car.jsx:43-47 | only the rental list changes; it gains the id and keeps being duplicate-free |
| Cars.RemoveRental | src/models/Car.jsx:53-55 | only the rental list changes; it loses the id and keeps every other id |
| Cars.IsAvailable | src/models/Car.jsx:64-75 | answers true exactly when no rental of this car overlaps the range, with each end taken as start plus days |
| Cars.AvailableIgnoresOtherCars | src/models/Car.jsx:64-75 | availability depends only on the rentals of this car |
| Cars.NoRentalsMeansAvailable | src/models/Car.jsx:64-75 | with no rentals at all, a car is available |
| Cars.AvailableIffNoSharedDay | src/models/Car.jsx:64-75 | on a non-empty range, a car is available exactly when none of its rentals shares a day with the range |
| Cars.ToJson | src/models/Car.jsx:81-92 | the JSON object carries every field of the car, the transmission and a copy of the rental list included |
| Cars.FromJson | src/models/Car.jsx:99-115 | every field present in the JSON is copied; a missing rental list becomes empty and a missing transmission becomes `automatic`; encoding the result gives the JSON back with those defaults filled in |
| Cars.JsonRoundTrip | src/models/Car.jsx:81-115 | decoding the JSON of a car gives back the same car |
| Customers.NewCustomer | src/models/Customer.jsx:12-21 | a new customer has no rentals, an empty address when none is given and income 0 when none is given |
| Customers.AddRental | src/models/Customer.jsx:35-39 | only the rental list changes; it gains the id and keeps being duplicate-free |
| Customers.RemoveRental | src/models/Customer.jsx:45-47 | only the rental list changes; it loses the id and keeps every other id |
| Customers.HasActiveRental | src/models/Customer.jsx:54-65 | answers true exactly when some rental of this customer covers the current day |
| Customers.ActiveOnIffWithinPeriod | src/models/Customer.jsx:54-65 | a rental is active exactly when it is the customer's and the day lies from its start to start plus days |
| Customers.OtherCustomersIgnored | src/models/Customer.jsx:54-65 | rentals of other customers never make a customer active |
| Customers.ToJson | src/models/Customer.jsx:71-82 | the JSON object carries every field of the customer, a copy of the rental list included |
| Customers.FromJson | src/models/Customer.jsx:89-105 | every field present in the JSON is copied; missing rentals, address and income become empty, empty and 0; encoding the result gives the JSON back with those defaults filled in |
| Customers.JsonRoundTrip | src/models/Customer.jsx:71-105 | decoding the JSON of a customer gives back the same customer |
| DataService.GetNextId | src/services/DataService.js:24-28 | the id is the stored counter (1 when nothing is stored), and the written counter reads back as the id plus one; a `NaN` counter stays `NaN` |
| DataService.GetNextIdReadsWhatItWrote | src/services/DataService.js:24-28 | a counter written as a number's text is read back as that number |
| DataService.NextIds | src/services/DataService.js:24-28 | `k` successive calls from a readable counter at `n` hand out `Consecutive(n, k)`; from an unreadable one, `NaN` every time |
| DataService.Consecutive | src/services/DataService.js:24-28 | the `i`-th of `k` consecutive ids starting at `n` is `n + i` |
| DataService.SuccessiveIdsConsecutive | src/services/DataService.js:24-28 | `k` successive draws from a counter at `n` yield `n, n+1, ...` |
| DataService.SuccessiveIdsIncrease | src/services/DataService.js:24-28 | successive draws yield strictly increasing, hence distinct, ids |
| DataService.ThreeWayIsClosedOverlap | src/services/DataService.js:324-328 | on valid non-empty ranges, the three-way test is the closed-range overlap test |
| DataService.IsCarAvailableAsWritten | src/services/DataService.js:318-332 | the check as written, with each rental's end read from the missing `endDate` field; `AsWrittenAlwaysAvailable` states what it answers |
| DataService.AsWrittenAlwaysAvailable | src/services/DataService.js:318-332 | as written, the check finds every car available for every range |
| DataService.AsWrittenMissesDoubleBooking | src/services/DataService.js:318-332 | as written, a range inside a booked rental of the same car is reported available, while the corrected check reports a conflict |
| DataService.IsCarAvailable | src/services/DataService.js:318-332 | the corrected check: no rental of the car, other than the excluded one, meets the range in the three-way test with its end at start plus days; `CheckCarAvailable` computes it and `CorrectedAgreesWithCar` relates it to the car's own test |
| DataService.CheckCarAvailable | src/services/DataService.js:318-332 | answers true exactly when no considered rental conflicts with the range, taking each end as start plus days |
| DataService.OnlyConsideredRentalsMatter | src/services/DataService.js:321 | rentals of other cars, and the excluded rental, never affect the answer |
| DataService.CorrectedAgreesWithCar | src/services/DataService.js:318-332 | with nothing excluded, the corrected check agrees with the car's own availability test |
| DataService.BoundaryCases | src/services/DataService.js:320-330 | a range starting on a booking's last day conflicts and one starting the day after does not; excluding the booking's id, or asking about another car, lifts the conflict |
| DataService.RentalsByCustomerId | src/services/DataService.js:339-342 | the result holds exactly the rentals of that customer |
| DataService.RentalsByCustomerIdExact | src/services/DataService.js:339-342 | each matching rental is kept as often as it occurs and in its order, and no other rental is kept |
| DataService.RentalsByCarId | src/services/DataService.js:349-352 | the result holds exactly the rentals of that car |
| DataService.RentalsByCarIdExact | src/services/DataService.js:349-352 | each matching rental is kept as often as it occurs and in its order, and no other rental is kept |
| DataService.CustomerById | src/services/DataService.js:133-136 | `null` exactly when no customer has the id, otherwise the first customer with it |
| DataService.CarById | src/services/DataService.js:196-199 | `null` exactly when no car has the id, otherwise the first car with it |
| DataService.RentalById | src/services/DataService.js:259-262 | `null` exactly when no rental has the id, otherwise the first rental with it |
| RentalForm.CandidateEnd | src/components/RentalForm.jsx:56-58 | the requested end is the start plus the parsed days, and the Invalid Date when the days are `NaN` |
| RentalForm.ValidateAsWritten | src/components/RentalForm.jsx:35-77 | each key is set exactly when its rule fires as written: a selection or start date is missing, the days are empty or parse to at most 0, or the car is booked |
| RentalForm.AsWrittenAcceptsNaNDays | src/components/RentalForm.jsx:50 | as written, days `.5` parse to `NaN` and raise no days error |
| RentalForm.Validate | src/components/RentalForm.jsx:35-77 | the corrected validation: the days error fires exactly when `parseInt` gives `NaN` or a value of at most 0; every other key is as written |
| RentalForm.EmptyDaysIsNaN | src/components/RentalForm.jsx:50 | empty days parse to `NaN`, so the corrected rule also covers the `!days` test |
| RentalForm.ValidateAgreesWhenDaysParse | src/components/RentalForm.jsx:35-77 | when the days parse, the corrected and as-written validations agree |
| RentalForm.ValidMeansComplete | src/components/RentalForm.jsx:35-77 | a valid form has a customer, a car, a start date, at least one day, and a car that is not booked |
| RentalForm.DateRangeIffSharedDay | src/components/RentalForm.jsx:54-72 | the availability error fires exactly when a rental of the car shares a day with the requested period |
| RentalForm.SameRentalAlwaysClashes | src/components/RentalForm.jsx:54-72 | requesting exactly an existing booking of the car always raises the availability error |
| RentalForm.AgreesWithDataService | src/components/RentalForm.jsx:54-72 | the form's availability test is the opposite of the corrected data-service check |
| RentalForm.SubmitAsWritten | src/components/RentalForm.jsx:79-103 | as written: a rental is produced exactly when `validate` as written passes; its days are `parseInt(days)`, possibly `NaN`, and at least 1 otherwise; the form is reset |
| RentalForm.AsWrittenSubmitsNaNDays | src/components/RentalForm.jsx:79-103 | as written, days `.5` produce a rental with `NaN` days and reset the form, while the corrected submit refuses the form |
| RentalForm.SubmitAgreesWhenDaysParse | src/components/RentalForm.jsx:79-103 | when the days parse, the corrected and as-written submits produce the same rental and the same next state |
| RentalForm.Submit | src/components/RentalForm.jsx:79-103 | the corrected submit: a rental is produced exactly when the corrected validation passes; it has no id, the form's fields and at least one day, and the form is reset |
| RentalForm.SubmittedRentalIsDisjoint | src/components/RentalForm.jsx:79-103 | a rental from the corrected submit shares no day with any existing rental of the same car |
| RentalForm.SubmitPreservesNoDoubleBooking | src/components/RentalForm.jsx:79-103 | adding a rental from the corrected submit to rentals with no double booking keeps them free of double booking |
| CustomerForm.Validate | src/components/CustomerForm.jsx:26-49 | names and phone are flagged exactly when blank; the identity number is flagged exactly when not eleven digits, as required when blank and invalid otherwise |
| CustomerForm.ElevenDigitsAreNotBlank | src/components/CustomerForm.jsx:37-41 | an eleven-digit number is never blank, so the two identity rules never overlap |
| CustomerForm.ValidIff | src/components/CustomerForm.jsx:26-49 | the form is valid exactly when both names and the phone are filled in and the identity number is eleven digits |
| CustomerForm.AddressAndIncomeIgnored | src/components/CustomerForm.jsx:26-49 | address and income never affect validation |
| CarForm.Validate | src/components/CarForm.jsx:26-53 | text fields are flagged exactly when blank; engine power is flagged when blank, not a number or not positive |
| CarForm.NumeralPowerRule | src/components/CarForm.jsx:45-48 | an engine power written as a plain numeral is rejected exactly when all its digits are 0 |
| CarForm.DecimalPowerRule | src/components/CarForm.jsx:45-48 | an engine power written with a fraction point is rejected exactly when the number it denotes is 0 |
| CarForm.HalfPowerAccepted | src/components/CarForm.jsx:45-48 | an engine power of `0.5` is accepted |
| CarForm.BlankPowerIsUnusable | src/components/CarForm.jsx:45-48 | a blank engine power would fail the number test too; only the message differs |
| CarForm.ValidIff | src/components/CarForm.jsx:26-53 | the form is valid exactly when the four text fields are filled in and the engine power is a positive number |
| CarForm.TransmissionIgnored | src/components/CarForm.jsx:26-53 | the transmission never affects validation |
| CarForm.AfterSubmit | src/components/CarForm.jsx:55-83 | a valid form is reset to the initial state, every input empty and transmission `automatic`, which is not itself valid; an invalid form is left unchanged |

## Left out

- `deleteCustomer`, `deleteCar` and `deleteRental` are not modelled. They call the asynchronous readers without `await`, so their behaviour depends on promise objects.
- Storage is not modelled: `localStorage`, `JSON.stringify`, the sample data and `initializeData`. The HTTP client in `src/services/api.js` and the server under `rent_a_car/` are not part of this model, and neither are the asynchronous fetch-and-fallback paths. Stored arrays are parameters, and the id counter's stored text is an `Option<string>`.
- Calendar conversion is not modelled. Dates are day numbers; the mapping to year, month and day, local time zones and daylight saving are left out. `FormatDateForInput` takes the calendar fields directly.
- DateUtils.FormatDateForInput: takes the calendar fields of the date, or `None` for the Invalid Date, rather than any value `new Date(date)` might be given; which values that constructor cannot read is part of the calendar conversion left out above.
- DateUtils.ParseDateInput: accepts any day from 1 to 31 in any month (`2024-02-31`), because the calendar is not modelled; it serves as the inverse of `FormatDateForInput`.
- DateUtils.IsDateInPast: does not model that `setHours` changes the caller's `Date` object in place; dates are values here.
- DateUtils.GetDaysBetweenDates: does not model that `setHours` changes both of the caller's `Date` objects in place; dates are values here.
- `formatDateToLocaleString` is not modelled: it depends on locale data.
- `getTodayMidnight` is not modelled: the current day is a parameter of `IsDateInPast` and `HasActiveRental`.
- Customers.HasActiveRental: does not model the time of day of `new Date()`. The current moment is a day number, so "now" on the end day counts as active even after midnight.
- The `fullName` and `specs` getters are not modelled: they only concatenate display text.
- The difference between `==` and `===` on ids is not modelled: ids are one type, so number-versus-string mismatches do not arise. Neither is the falsiness of id `0`: a selection is either `None` or an id.
- `Number` is modelled on decimal literals only; exponents, hexadecimal and `Infinity` are left out. `parseFloat` is assumed to agree with `Number` on decimal literals, where both read the same number.
- CarForm.Validate: flags an engine power written with an exponent, such as `1e3`, which the source accepts (`Number("1e3")` is 1000), because the exponent form of `Number` is not modelled.
- DataService.GetNextId: ids and the counter are unbounded integers, while JavaScript numbers are doubles. From 2^53 on, `counter + 1` rounds back to the counter, so the promise of a strictly larger next id holds only below that.
- DataService.SuccessiveIdsIncrease: holds for the model's unbounded counter; in the source it fails once the counter reaches 2^53, where adding 1 no longer changes a double.
- JsText.ParseIntOfIntToDecimal: `String(n)` is the plain decimal numeral here; from 10^21 on JavaScript writes `1e+21`, which `parseInt` reads as 1, so the counter round trip holds in the source only below that.
- The customer form's `handleSubmit` is not modelled: it builds the customer with `parseFloat(income) || 0`, a floating-point conversion.
- The car built by the car form's `handleSubmit` is not modelled: it reads the engine power with `parseInt` after validating it with `parseFloat`. Only the form reset is modelled.
- `handleChange`, which clears a field's error as it is edited, is not modelled.
- The browser's own checks on `type="number"` and `min` inputs (src/components/RentalForm.jsx:185-189) are not modelled: a browser may refuse to submit a day count such as `.5` before `handleSubmit` runs. The form logic is modelled on whatever text reaches it.
- Error message texts are not modelled; each error key carries only its kind.
- A `null` income stored in JSON is not modelled: the income is a real number.
- Concurrency between tabs sharing one counter or one rental array is not modelled.

## Findings

| source | as written | input that shows it | evidently intended | confidence | as-written member | corrected member |
|---|---|---|---|---|---|---|
| src/services/DataService.js:323 | the rental's end is read from `rental.endDate`, a field no rental has, so it is the Invalid Date and every comparison with it is false | car 7 booked from day 10 for 3 days; ask for days 11 to 12 for car 7: the check answers available | the end is the start plus the day count, as in `Rental.getEndDate` | not executed | DataService.AsWrittenMissesDoubleBooking | DataService.IsCarAvailable |
| src/components/RentalForm.jsx:50 | `parseInt(days, 10) <= 0` is false for `NaN`, so a non-empty day count without leading digits passes `validate`, and `handleSubmit` builds a rental with `NaN` days | days `.5`, with customer, car and start date filled in and no rentals: `parseInt` gives `NaN`, `validate` sets no error, and the submitted rental has `NaN` days | reject a day count that `parseInt` cannot read, as well as one it reads as at most 0 | not executed | RentalForm.AsWrittenSubmitsNaNDays | RentalForm.Submit |
