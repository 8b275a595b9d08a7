/** The birthday check and the 15% birthday discount (src/utils/birthday.ts). */
module Birthday {
  import opened Wrappers
  import opened Text

  /** Today's local calendar date as `getMonth()` (0 is January) and `getDate()` report
      it; the source reads the wall clock, the model takes it as a parameter. */
  datatype Today = Today(month: int, day: int)

  /** The customer's stored birth date: null/undefined, a string, or a `Date` object
      (given by its local month, 0-based, and day of the month). */
  datatype BirthDate = Absent | DateString(s: string) | DateObject(month: int, day: int)

  /** `isBirthday(fecha)`. A string of three `-`-separated parts is read as `YYYY-MM-DD`
      with `parseInt`, where a part without digits is `NaN` and never matches. Any other
      string goes through `new Date(...)`; that parse is not modelled, and
      `parsedFallback` stands for its UTC month and day (`None` for an invalid date). */
  function IsBirthday(fecha: BirthDate, today: Today, parsedFallback: Option<Today>): (r: bool)
    ensures fecha == Absent || fecha == DateString("") ==> !r
  {
    match fecha
    case Absent => false
    case DateString(s) =>
      if s == "" then false
      else
        var parts := Split(s, '-');
        if |parts| == 3 then
          var month := ParseInt(parts[1]);
          var day := ParseInt(parts[2]);
          month.Some? && day.Some? && today.month == month.value - 1 && today.day == day.value
        else
          parsedFallback == Some(today)
    case DateObject(month, day) => today.month == month && today.day == day
  }

  lemma SplitDate(y: string, m: string, d: string)
    requires '-' !in y && '-' !in m && '-' !in d
    ensures Split(y + "-" + m + "-" + d, '-') == [y, m, d]
  {
    assert y + "-" + m + "-" + d == y + ['-'] + (m + ['-'] + d);
    SplitAfter(y, m + ['-'] + d, '-');
    SplitAfter(m, d, '-');
    SplitWhole(d, '-');
  }

  lemma NoDashInDigits(s: string)
    requires AllDigits(s)
    ensures '-' !in s
  {
  }

  /** On a `YYYY-MM-DD` string the result is true exactly when the month and the day
      match today's (the month part counts from 1). */
  lemma IsBirthdayOnIsoDate(y: string, m: string, d: string, today: Today, fallback: Option<Today>)
    requires '-' !in y
    requires m != [] && AllDigits(m) && d != [] && AllDigits(d)
    ensures IsBirthday(DateString(y + "-" + m + "-" + d), today, fallback)
        <==> today.month == DigitsValue(m) - 1 && today.day == DigitsValue(d)
  {
    var s := y + "-" + m + "-" + d;
    assert s != "" by { assert |s| >= 2; }
    NoDashInDigits(m);
    NoDashInDigits(d);
    SplitDate(y, m, d);
    var parts := Split(s, '-');
    assert |parts| == 3 && parts[1] == m && parts[2] == d;
    ParseIntOfDigits(m);
    ParseIntOfDigits(d);
  }

  /** The year part never affects the result. */
  lemma YearIsIgnored(y1: string, y2: string, m: string, d: string, today: Today, fallback: Option<Today>)
    requires '-' !in y1 && '-' !in y2 && '-' !in m && '-' !in d
    ensures IsBirthday(DateString(y1 + "-" + m + "-" + d), today, fallback)
        == IsBirthday(DateString(y2 + "-" + m + "-" + d), today, fallback)
  {
    SplitDate(y1, m, d);
    SplitDate(y2, m, d);
  }

  /** `BIRTHDAY_DISCOUNT_PERCENT` */
  const BirthdayDiscountPercent: int := 15

  /** `BIRTHDAY_DISCOUNT`, the percentage as a fraction. */
  const BirthdayDiscount: real := BirthdayDiscountPercent as real / 100.0

  /** `getBirthdayDiscountAmount(p)`: the part of the price that is taken off. */
  function GetBirthdayDiscountAmount(precioOriginal: real): (r: real)
    ensures r == precioOriginal * 15.0 / 100.0
    ensures 0.0 <= precioOriginal ==> 0.0 <= r <= precioOriginal
  {
    precioOriginal * BirthdayDiscount
  }

  /** `applyBirthdayDiscount(p)`: the price after the birthday discount. */
  function ApplyBirthdayDiscount(precioOriginal: real): (r: real)
    ensures r == precioOriginal * (1.0 - 15.0 / 100.0)
    ensures r + GetBirthdayDiscountAmount(precioOriginal) == precioOriginal
    ensures 0.0 <= precioOriginal ==> 0.0 <= r <= precioOriginal
  {
    precioOriginal * (1.0 - BirthdayDiscount)
  }

  /** The discount keeps the order of prices, so sorting by discounted price and by list
      price agree. */
  lemma DiscountMonotone(p: real, q: real)
    ensures p <= q <==> ApplyBirthdayDiscount(p) <= ApplyBirthdayDiscount(q)
  {
  }
}
