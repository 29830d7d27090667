/** Date helpers. A JavaScript `Date` is modelled as a whole day number, or as the
    Invalid Date (`NaN` time value) that `new Date(undefined)` or `setDate(NaN)`
    produce. Like JavaScript's relational operators on `Date`s, every comparison
    that involves the Invalid Date is false. */
module DateUtils {
  import opened Optional
  import JsText

  datatype Instant = Date(day: int) | InvalidDate

  /** `a < b` */
  predicate Before(a: Instant, b: Instant) {
    a.Date? && b.Date? && a.day < b.day
  }

  /** `a > b` */
  predicate After(a: Instant, b: Instant) {
    Before(b, a)
  }

  /** `a <= b` */
  predicate AtOrBefore(a: Instant, b: Instant) {
    a.Date? && b.Date? && a.day <= b.day
  }

  /** `a >= b` */
  predicate AtOrAfter(a: Instant, b: Instant) {
    AtOrBefore(b, a)
  }

  /** `isDateRangeOverlapping`: the ranges overlap unless the first ends before
      the second starts or the first starts after the second ends. Both tests fail
      when an Invalid Date takes part, so such ranges count as overlapping. */
  predicate IsDateRangeOverlapping(start1: Instant, end1: Instant, start2: Instant, end2: Instant)
    ensures (end1.InvalidDate? || start2.InvalidDate?) && (start1.InvalidDate? || end2.InvalidDate?) ==>
      IsDateRangeOverlapping(start1, end1, start2, end2)
  {
    !(Before(end1, start2) || After(start1, end2))
  }

  /** Some day lies in both closed ranges `[s1, e1]` and `[s2, e2]`. */
  ghost predicate ShareADay(s1: int, e1: int, s2: int, e2: int) {
    exists d :: InRange(d, s1, e1) && InRange(d, s2, e2)
  }

  /** Day `d` lies in the closed range `[s, e]`. */
  predicate InRange(d: int, s: int, e: int) {
    s <= d <= e
  }

  /** On valid dates, the test is the usual closed-interval comparison. */
  lemma OverlapOnValidDates(s1: int, e1: int, s2: int, e2: int)
    ensures IsDateRangeOverlapping(Date(s1), Date(e1), Date(s2), Date(e2)) <==> s1 <= e2 && s2 <= e1
  {
  }

  /** For well-formed ranges the test holds exactly when the closed ranges share a day. */
  lemma OverlapIffShareADay(s1: int, e1: int, s2: int, e2: int)
    requires s1 <= e1 && s2 <= e2
    ensures IsDateRangeOverlapping(Date(s1), Date(e1), Date(s2), Date(e2)) <==> ShareADay(s1, e1, s2, e2)
  {
    if s1 <= e2 && s2 <= e1 {
      var d := if s1 < s2 then s2 else s1;
      assert InRange(d, s1, e1) && InRange(d, s2, e2);
    }
  }

  /** Swapping the two ranges never changes the answer. */
  lemma OverlapSymmetric(s1: Instant, e1: Instant, s2: Instant, e2: Instant)
    ensures IsDateRangeOverlapping(s1, e1, s2, e2) == IsDateRangeOverlapping(s2, e2, s1, e1)
  {
  }

  /** A range ending on day `d` and a range starting on day `d` overlap. */
  lemma SharedEndpointOverlaps(s1: int, d: int, e2: int)
    requires s1 <= d <= e2
    ensures IsDateRangeOverlapping(Date(s1), Date(d), Date(d), Date(e2))
  {
  }

  /** With the first range's end invalid, only `start1 > end2` can rule overlap
      out, so the test degenerates to `start1 <= end2`. */
  lemma OverlapWithInvalidEnd(s1: Instant, s2: Instant, e2: Instant)
    ensures IsDateRangeOverlapping(s1, InvalidDate, s2, e2) == !After(s1, e2)
  {
  }

  /** `addDaysToDate`: a new date `days` days later; the Invalid Date stays invalid. */
  function AddDaysToDate(date: Instant, days: int): (r: Instant)
    ensures r.Date? <==> date.Date?
    ensures date.Date? ==> GetDaysBetweenDates(date, r) == Some(days)
  {
    match date
    case Date(d) => Date(d + days)
    case InvalidDate => InvalidDate
  }

  /** `getDaysBetweenDates`: how many days `date2` lies after `date1`; `None` is
      the `NaN` that an Invalid Date produces. */
  function GetDaysBetweenDates(date1: Instant, date2: Instant): (r: Option<int>)
    ensures r.Some? <==> date1.Date? && date2.Date?
    ensures r.Some? ==> (r.value > 0 <==> After(date2, date1))
    ensures r.Some? ==> (r.value == 0 <==> date1 == date2)
  {
    if date1.Date? && date2.Date? then Some(date2.day - date1.day) else None
  }

  /** Adding zero days gives back the same date. */
  lemma AddZeroDays(date: Instant)
    ensures AddDaysToDate(date, 0) == date
  {
  }

  /** Adding `a` days and then `b` days is adding `a + b` days. */
  lemma AddDaysCompose(date: Instant, a: int, b: int)
    ensures AddDaysToDate(AddDaysToDate(date, a), b) == AddDaysToDate(date, a + b)
  {
  }

  /** Moving forward by the distance between two valid dates lands on the second. */
  lemma AddDaysBetween(d1: int, d2: int)
    ensures GetDaysBetweenDates(Date(d1), Date(d2)).Some?
    ensures AddDaysToDate(Date(d1), GetDaysBetweenDates(Date(d1), Date(d2)).value) == Date(d2)
  {
  }

  /** The distance is antisymmetric. */
  lemma DaysBetweenAntisymmetric(d1: int, d2: int)
    ensures GetDaysBetweenDates(Date(d1), Date(d2)).value == -GetDaysBetweenDates(Date(d2), Date(d1)).value
  {
  }

  /** `isDateInPast`, with today's date passed in rather than read from the clock.
      The Invalid Date is never in the past. */
  predicate IsDateInPast(date: Instant, today: int)
    ensures IsDateInPast(date, today) ==> date.Date?
  {
    Before(date, Date(today))
  }

  /** A date is in the past exactly when today lies a positive number of days after it. */
  lemma InPastIffTodayIsLater(date: Instant, today: int)
    ensures IsDateInPast(date, today) <==>
      var gap := GetDaysBetweenDates(date, Date(today)); gap.Some? && gap.value > 0
  {
  }

  // ----- YYYY-MM-DD text -----

  /** The fields `getFullYear()`, `getMonth() + 1` and `getDate()` of a date. */
  datatype CalendarDate = CalendarDate(year: int, month: int, day: int)

  predicate ValidFields(c: CalendarDate) {
    1 <= c.month <= 12 && 1 <= c.day <= 31
  }

  /** `month.length < 2 ? '0' + month : month`: a numeral of one or two digits
      becomes exactly two digits with the same value. */
  function PadTwo(s: string): (r: string)
    ensures 1 <= |s| <= 2 && JsText.AllDigits(s) ==>
      |r| == 2 && JsText.AllDigits(r) && JsText.DigitsValue(r) == JsText.DigitsValue(s)
    ensures |s| >= 2 ==> r == s
  {
    LeadingZeroKeepsValue(s);
    if |s| < 2 then "0" + s else s
  }

  /** A leading `0` does not change the value of a one-digit numeral. */
  lemma LeadingZeroKeepsValue(s: string)
    ensures |s| == 1 && JsText.AllDigits(s) ==>
      JsText.AllDigits("0" + s) && JsText.DigitsValue("0" + s) == JsText.DigitsValue(s)
  {
    if |s| == 1 && JsText.AllDigits(s) {
      var t := "0" + s;
      assert t[..1] == "0";
      assert t[1] == s[0];
      assert s[..0] == [];
      assert "0"[..0] == [];
    }
  }

  /** `formatDateForInput`, given the calendar fields of the date, or `None` for
      the Invalid Date, whose fields are all `NaN`. Each field is written as
      `String` writes it, the month and the day padded to two characters, and the
      three are joined by `-`. */
  function FormatDateForInput(fields: Option<CalendarDate>): (r: string)
    ensures fields.None? ==> r == "NaN-NaN-NaN"
    ensures fields.Some? && ValidFields(fields.value) ==>
      var c := fields.value;
      var y := JsText.IntToDecimal(c.year);
      |r| == |y| + 6 && r[..|y|] == y && r[|y|] == '-' && r[|y| + 3] == '-' &&
      JsText.AllDigits(r[|y| + 1..|y| + 3]) && JsText.AllDigits(r[|y| + 4..]) &&
      JsText.DigitsValue(r[|y| + 1..|y| + 3]) == c.month && JsText.DigitsValue(r[|y| + 4..]) == c.day
  {
    match fields
    case None =>
      var nan := "NaN";
      nan + "-" + PadTwo(nan) + "-" + PadTwo(nan)
    case Some(c) =>
      TwoDigitNumeral(c.month);
      TwoDigitNumeral(c.day);
      var y := JsText.IntToDecimal(c.year);
      var m := PadTwo(JsText.IntToDecimal(c.month));
      var d := PadTwo(JsText.IntToDecimal(c.day));
      JoinedFields(y, m, d);
      y + "-" + m + "-" + d
  }

  /** Where the three parts sit in the joined text when the last two are two
      characters long. */
  lemma JoinedFields(y: string, m: string, d: string)
    ensures |m| == 2 && |d| == 2 ==>
      var r := y + "-" + m + "-" + d;
      |r| == |y| + 6 && r[..|y|] == y && r[|y|] == '-' && r[|y| + 3] == '-' &&
      r[|y| + 1..|y| + 3] == m && r[|y| + 4..] == d
  {
  }

  /** The text written for the Invalid Date is not a date input's value. */
  lemma InvalidDateTextRejected()
    ensures ParseDateInput(FormatDateForInput(None)) == None
  {
    var s := FormatDateForInput(None);
    assert s[..4][0] == 'N';
  }

  /** A number from 1 to 99 pads to exactly two digits whose value is the number. */
  lemma TwoDigitNumeral(n: int)
    ensures 1 <= n <= 99 ==>
      var p := PadTwo(JsText.IntToDecimal(n));
      |p| == 2 && JsText.AllDigits(p) && JsText.DigitsValue(p) == n
  {
    var s := JsText.IntToDecimal(n);
    if n < 0 {
    } else if n < 10 {
      JsText.DigitsValueOfNatToDecimal(n);
      assert s == [JsText.DigitChar(n)];
      var p := PadTwo(s);
      assert p[..1] == "0";
    } else if n <= 99 {
      JsText.DigitsValueOfNatToDecimal(n);
    }
  }

  /** The `YYYY-MM-DD` value of a date input: four digits, `-`, two digits, `-`,
      two digits, with a month from 1 to 12 and a day from 1 to 31. */
  function ParseDateInput(s: string): (r: Option<CalendarDate>)
    ensures r.Some? ==> ValidFields(r.value) && 0 <= r.value.year <= 9999
  {
    if |s| == 10 && s[4] == '-' && s[7] == '-' &&
       JsText.AllDigits(s[..4]) && JsText.AllDigits(s[5..7]) && JsText.AllDigits(s[8..])
    then
      DigitsBound(s[..4]);
      DigitsBound(s[5..7]);
      DigitsBound(s[8..]);
      var c := CalendarDate(JsText.DigitsValue(s[..4]), JsText.DigitsValue(s[5..7]), JsText.DigitsValue(s[8..]));
      if ValidFields(c) then Some(c) else None
    else None
  }

  lemma {:induction false} DigitsBound(s: string)
    requires JsText.AllDigits(s)
    ensures JsText.DigitsValue(s) < JsText.Pow10(|s|)
    decreases |s|
  {
    if s != [] {
      DigitsBound(s[..|s| - 1]);
    }
  }

  /** Formatting a date of a four-digit year and reading the text back gives the date. */
  lemma ParseFormatRoundTrip(c: CalendarDate)
    requires ValidFields(c) && 1000 <= c.year <= 9999
    ensures ParseDateInput(FormatDateForInput(Some(c))) == Some(c)
  {
    var y := JsText.IntToDecimal(c.year);
    var m := PadTwo(JsText.IntToDecimal(c.month));
    var d := PadTwo(JsText.IntToDecimal(c.day));
    TwoDigitNumeral(c.month);
    TwoDigitNumeral(c.day);
    FourDigitYear(c.year);
    JsText.DigitsValueOfNatToDecimal(c.year);
    var s := FormatDateForInput(Some(c));
    assert s == y + "-" + m + "-" + d;
    assert s[..4] == y && s[5..7] == m && s[8..] == d;
  }

  lemma FourDigitYear(n: int)
    requires 1000 <= n <= 9999
    ensures |JsText.IntToDecimal(n)| == 4
  {
    var a := n / 10;
    var b := a / 10;
    var c := b / 10;
    assert 1 <= c < 10 && 10 <= b && 100 <= a;
    assert |JsText.NatToDecimal(b)| == |JsText.NatToDecimal(c)| + 1;
    assert |JsText.NatToDecimal(a)| == |JsText.NatToDecimal(b)| + 1;
    assert |JsText.NatToDecimal(n)| == |JsText.NatToDecimal(a)| + 1;
  }

  /** Reading a date input's text and formatting the date gives the text back,
      whenever the year does not start with `0`. */
  lemma FormatParseRoundTrip(s: string)
    requires ParseDateInput(s).Some? && s[0] != '0'
    ensures FormatDateForInput(ParseDateInput(s)) == s
  {
    var c := ParseDateInput(s).value;
    JsText.NatToDecimalOfDigitsValue(s[..4]);
    TwoDigitText(s[5..7]);
    TwoDigitText(s[8..]);
    assert s == s[..4] + "-" + s[5..7] + "-" + s[8..];
  }

  /** A two-digit text holding 1 to 99 is the padded numeral of its value. */
  lemma TwoDigitText(t: string)
    requires |t| == 2 && JsText.AllDigits(t) && JsText.DigitsValue(t) >= 1
    ensures PadTwo(JsText.IntToDecimal(JsText.DigitsValue(t))) == t
  {
    if t[0] == '0' {
      var u := t[1..];
      assert t[..1] == "0";
      assert t[..1][..0] == [];
      assert JsText.DigitsValue(t[..1]) == 0;
      assert t[..|t| - 1] == t[..1];
      assert JsText.DigitsValue(t) == JsText.DigitValue(t[1]);
      assert u == [t[1]];
      JsText.NatToDecimalOfDigitsValue(u);
      assert t == "0" + u;
    } else {
      JsText.NatToDecimalOfDigitsValue(t);
    }
  }
}
